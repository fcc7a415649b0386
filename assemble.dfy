/** Building the result: folding decoded entries into the key-to-value map
    with list coercion, then moving entries keyed by a group's id into that group. */
module Assemble {
  import opened Common
  import opened BinaryInfo

  type Parsed = map<Key, Value>

  /** Files one entry: a new key stores the value bare, or as a one-element
      list for the always-a-list keys; a second value for a bare key makes a
      two-element list; a list grows at its end. */
  function FoldEntry(parsed: Parsed, e: Entry): (r: Parsed)
    ensures r.Keys == parsed.Keys + {e.key}
    ensures forall k :: k in parsed && k != e.key ==> r[k] == parsed[k]
  {
    var k, v := e.key, e.value;
    if k in parsed then
      if parsed[k].List? then parsed[k := List(parsed[k].items + [v])]
      else parsed[k := List([parsed[k], v])]
    else parsed[k := if k in ALWAYS_A_LIST then List([v]) else v]
  }

  /** The map after filing the entries one by one, in order. */
  function FoldAll(es: seq<Entry>): Parsed
  {
    if es == [] then map[] else FoldEntry(FoldAll(es[..|es| - 1]), es[|es| - 1])
  }

  /** The values filed under k, in the order of the entries. */
  function ValuesOf(es: seq<Entry>, k: Key): seq<Value>
  {
    if es == [] then []
    else ValuesOf(es[..|es| - 1], k) + (if es[|es| - 1].key == k then [es[|es| - 1].value] else [])
  }

  /** How a key with these values is stored: a list when the key is always a
      list or has several values, the bare value otherwise. */
  function Shape(k: Key, vs: seq<Value>): Value
    requires vs != []
  {
    if k in ALWAYS_A_LIST || |vs| > 1 then List(vs) else vs[0]
  }

  /** The fold in closed form: a key is present exactly when some entry has it,
      and holds all of that key's values, in entry order, in the shape the
      coercion rule gives. Decoded values are never lists themselves. */
  lemma {:induction false} FoldAllShape(es: seq<Entry>)
    requires forall i :: 0 <= i < |es| ==> !es[i].value.List?
    ensures forall k :: k in FoldAll(es) <==> ValuesOf(es, k) != []
    ensures forall k :: k in FoldAll(es) ==> FoldAll(es)[k] == Shape(k, ValuesOf(es, k))
  {
    if es != [] {
      var init, last := es[..|es| - 1], es[|es| - 1];
      FoldAllShape(init);
      var m := FoldAll(init);
      forall k
        ensures k in FoldAll(es) <==> ValuesOf(es, k) != []
        ensures k in FoldAll(es) ==> FoldAll(es)[k] == Shape(k, ValuesOf(es, k))
      {
        var vs := ValuesOf(init, k);
        if k == last.key && k in m {
          ValuesOfKeyed(init, k);
          assert vs[0] in vs;
          assert m[k].List? <==> (k in ALWAYS_A_LIST || |vs| > 1);
          assert ValuesOf(es, k) == vs + [last.value];
          if !m[k].List? {
            assert vs == [vs[0]];
          }
        }
      }
    }
  }

  /** With decoded entries, the named-group key, when present, holds a list of groups. */
  lemma NamedGroupsAreGroups(es: seq<Entry>)
    requires forall i :: 0 <= i < |es| ==> !es[i].value.List?
    requires forall i :: 0 <= i < |es| ==> (es[i].key == NAMED_GROUP_KEY ==> es[i].value.Group?)
    ensures NAMED_GROUP_KEY in FoldAll(es) ==>
      FoldAll(es)[NAMED_GROUP_KEY].List? && forall g :: g in FoldAll(es)[NAMED_GROUP_KEY].items ==> g.Group?
  {
    FoldAllShape(es);
    ValuesOfKeyed(es, NAMED_GROUP_KEY);
  }

  /** Every value filed under k comes from an entry with key k. */
  lemma {:induction false} ValuesOfKeyed(es: seq<Entry>, k: Key)
    ensures forall v :: v in ValuesOf(es, k) ==> exists i :: 0 <= i < |es| && es[i] == Entry(k, v)
  {
    if es != [] {
      var init := es[..|es| - 1];
      ValuesOfKeyed(init, k);
      forall v | v in ValuesOf(es, k)
        ensures exists i :: 0 <= i < |es| && es[i] == Entry(k, v)
      {
        if v in ValuesOf(init, k) {
          var i :| 0 <= i < |init| && init[i] == Entry(k, v);
          assert es[i] == Entry(k, v);
        } else {
          assert es[|es| - 1] == Entry(k, v);
        }
      }
    }
  }

  /** The relocation loop over the groups, in list order: a group whose id is
      still a top-level key takes that key's value as its data, and the key is removed. */
  function RelocateGroups(groups: seq<Value>, top: Parsed): (seq<Value>, Parsed)
    decreases |groups|
  {
    if groups == [] then ([], top)
    else
      var g := groups[0];
      var (g', top') :=
        if g.Group? && Num(g.id) in top then (g.(data := Some(top[Num(g.id)])), top - {Num(g.id)})
        else (g, top);
      var (rest, top'') := RelocateGroups(groups[1..], top');
      ([g'] + rest, top'')
  }

  /** The post-processing step: relocate into the named groups, if there are any. */
  function AssignGroups(parsed: Parsed): Parsed
  {
    if NAMED_GROUP_KEY in parsed && parsed[NAMED_GROUP_KEY].List? then
      var (groups, top) := RelocateGroups(parsed[NAMED_GROUP_KEY].items, parsed);
      top[NAMED_GROUP_KEY := List(groups)]
    else parsed
  }

  /** The keys the groups' ids name. */
  ghost function GroupKeys(groups: seq<Value>): set<Key>
  {
    set i | 0 <= i < |groups| && groups[i].Group? :: Num(groups[i].id)
  }

  /** No group before position i has the same id as the group at i. */
  ghost predicate FirstWithId(groups: seq<Value>, i: nat)
    requires i < |groups| && groups[i].Group?
  {
    forall j :: 0 <= j < i ==> !(groups[j].Group? && groups[j].id == groups[i].id)
  }

  /** The group at i after relocation: it receives the top-level value under
      its id when it is the first group with that id; otherwise it is unchanged. */
  ghost function Relocated(groups: seq<Value>, top: Parsed, i: nat): Value
    requires i < |groups|
  {
    var g := groups[i];
    if g.Group? && Num(g.id) in top && FirstWithId(groups, i) then g.(data := Some(top[Num(g.id)])) else g
  }

  /** The keys named by a list of groups: the head's, then the rest's. */
  lemma GroupKeysCons(groups: seq<Value>)
    requires groups != []
    ensures GroupKeys(groups) == (if groups[0].Group? then {Num(groups[0].id)} else {}) + GroupKeys(groups[1..])
  {
    var rest := groups[1..];
    forall k | k in GroupKeys(groups)
      ensures k in (if groups[0].Group? then {Num(groups[0].id)} else {}) + GroupKeys(rest)
    {
      var i :| 0 <= i < |groups| && groups[i].Group? && k == Num(groups[i].id);
      if i > 0 {
        assert rest[i - 1] == groups[i];
      }
    }
    forall k | k in GroupKeys(rest)
      ensures k in GroupKeys(groups)
    {
      var i :| 0 <= i < |rest| && rest[i].Group? && k == Num(rest[i].id);
      assert groups[i + 1] == rest[i];
    }
  }

  /** Past a head with another id, being first with an id is the same in the
      list and in its tail. */
  lemma FirstWithIdTail(groups: seq<Value>, i: nat)
    requires 0 < i < |groups| && groups[i].Group?
    requires !(groups[0].Group? && groups[0].id == groups[i].id)
    ensures FirstWithId(groups, i) <==> FirstWithId(groups[1..], i - 1)
  {
    var rest := groups[1..];
    forall j | 0 < j < i
      ensures (groups[j].Group? && groups[j].id == groups[i].id) == (rest[j - 1].Group? && rest[j - 1].id == rest[i - 1].id)
    {
      assert rest[j - 1] == groups[j];
    }
  }

  /** Relocation removes from the top level exactly the keys named by group
      ids, and nothing else. */
  lemma {:induction false} RelocateGroupsTop(groups: seq<Value>, top: Parsed)
    ensures RelocateGroups(groups, top).1 == top - GroupKeys(groups)
    decreases |groups|
  {
    if groups != [] {
      var g := groups[0];
      var top' := if g.Group? && Num(g.id) in top then top - {Num(g.id)} else top;
      RelocateGroupsTop(groups[1..], top');
      GroupKeysCons(groups);
    }
  }

  /** Relocation in closed form: group i changes exactly as `Relocated` says
      (so with duplicate ids the first group wins), and the top level loses
      exactly the keys named by group ids and nothing else. */
  lemma {:induction false} RelocateGroupsSpec(groups: seq<Value>, top: Parsed)
    ensures |RelocateGroups(groups, top).0| == |groups|
    ensures forall i :: 0 <= i < |groups| ==> RelocateGroups(groups, top).0[i] == Relocated(groups, top, i)
    ensures RelocateGroups(groups, top).1 == top - GroupKeys(groups)
    decreases |groups|
  {
    RelocateGroupsTop(groups, top);
    if groups != [] {
      var g := groups[0];
      var top' := if g.Group? && Num(g.id) in top then top - {Num(g.id)} else top;
      var rest := groups[1..];
      RelocateGroupsSpec(rest, top');
      var gs := RelocateGroups(groups, top).0;
      forall i | 0 < i < |groups|
        ensures gs[i] == Relocated(groups, top, i)
      {
        assert rest[i - 1] == groups[i];
        assert gs[i] == Relocated(rest, top', i - 1);
        if groups[i].Group? {
          if g.Group? && g.id == groups[i].id {
            assert !FirstWithId(groups, i);
          } else {
            FirstWithIdTail(groups, i);
          }
        }
      }
    }
  }

  /** After assembly: the named-group list holds the relocated groups; every
      other key is gone exactly when some group's id names it, and otherwise
      keeps its value. Without named groups nothing changes. */
  lemma AssignGroupsSpec(parsed: Parsed)
    ensures NAMED_GROUP_KEY !in parsed ==> AssignGroups(parsed) == parsed
    ensures NAMED_GROUP_KEY in parsed && parsed[NAMED_GROUP_KEY].List? ==>
      var groups := parsed[NAMED_GROUP_KEY].items;
      var r := AssignGroups(parsed);
      && NAMED_GROUP_KEY in r
      && r[NAMED_GROUP_KEY].List?
      && |r[NAMED_GROUP_KEY].items| == |groups|
      && (forall i :: 0 <= i < |groups| ==> r[NAMED_GROUP_KEY].items[i] == Relocated(groups, parsed, i))
      && (forall k :: k != NAMED_GROUP_KEY ==> (k in r <==> k in parsed && k !in GroupKeys(groups)))
      && (forall k :: k != NAMED_GROUP_KEY && k in r ==> r[k] == parsed[k])
  {
    if NAMED_GROUP_KEY in parsed && parsed[NAMED_GROUP_KEY].List? {
      RelocateGroupsSpec(parsed[NAMED_GROUP_KEY].items, parsed);
    }
  }

  /** The relocation loop, as the parser runs it over the folded map. */
  method MoveGroupData(parsed: Parsed) returns (r: Parsed)
    ensures r == AssignGroups(parsed)
  {
    r := parsed;
    if NAMED_GROUP_KEY in r && r[NAMED_GROUP_KEY].List? {
      var groups := r[NAMED_GROUP_KEY].items;
      var done: seq<Value> := [];
      var i := 0;
      assert groups[i..] == groups;
      while i < |groups|
        invariant 0 <= i <= |groups|
        invariant RelocateGroups(groups, parsed).0 == done + RelocateGroups(groups[i..], r).0
        invariant RelocateGroups(groups, parsed).1 == RelocateGroups(groups[i..], r).1
      {
        var group := groups[i];
        ghost var before := r;
        assert groups[i..] == [group] + groups[i + 1..];
        if group.Group? && Num(group.id) in r {
          group := group.(data := Some(r[Num(group.id)]));
          r := r - {Num(group.id)};
        }
        assert RelocateGroups(groups[i..], before)
            == ([group] + RelocateGroups(groups[i + 1..], r).0, RelocateGroups(groups[i + 1..], r).1);
        assert done + ([group] + RelocateGroups(groups[i + 1..], r).0)
            == (done + [group]) + RelocateGroups(groups[i + 1..], r).0;
        done := done + [group];
        i := i + 1;
      }
      assert groups[i..] == [];
      assert RelocateGroups(groups[i..], r) == ([], r);
      assert done + [] == done;
      assert RelocateGroups(groups, parsed) == (done, r);
      r := r[NAMED_GROUP_KEY := List(done)];
    }
  }
}
