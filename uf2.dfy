/** UF2 flattening: the reader cuts each 512-byte block down to its 256-byte
    payload and concatenates the payloads, without looking at the header. */
module Uf2 {
  import opened Common

  const BLOCK_SIZE: nat := 512
  const DATA_SIZE: nat := 256
  const HEADER_SIZE: nat := 32

  /** The slice `block[32:288]`; Python clips slice bounds to the block, so a
      short last block gives fewer bytes, or none. */
  function Payload(block: seq<byte>): (p: seq<byte>)
    ensures |p| <= DATA_SIZE
    ensures |block| == BLOCK_SIZE ==> p == block[HEADER_SIZE..HEADER_SIZE + DATA_SIZE]
  {
    block[Min(HEADER_SIZE, |block|)..Min(HEADER_SIZE + DATA_SIZE, |block|)]
  }

  /** The flattened image: the payload of every chunk `file.read(512)` returns, in order. */
  function Flatten(file: seq<byte>): seq<byte>
    decreases |file|
  {
    if file == [] then []
    else
      var n := Min(BLOCK_SIZE, |file|);
      Payload(file[..n]) + Flatten(file[n..])
  }

  /** Flattening from a block boundary: that block's payload, then the rest. */
  lemma FlattenFrom(file: seq<byte>, pos: nat)
    requires pos < |file|
    ensures var n := Min(BLOCK_SIZE, |file| - pos);
      Flatten(file[pos..]) == Payload(file[pos..pos + n]) + Flatten(file[pos + n..])
  {
    var n := Min(BLOCK_SIZE, |file| - pos);
    assert file[pos..][..n] == file[pos..pos + n] && file[pos..][n..] == file[pos + n..];
  }

  /** The block-reading loop of the UF2 reader, joined as its constructor joins it. */
  method Uf2ToBin(file: seq<byte>) returns (bin: seq<byte>)
    ensures bin == Flatten(file)
  {
    bin := [];
    var pos := 0;
    while pos < |file|
      invariant 0 <= pos <= |file|
      invariant Flatten(file) == bin + Flatten(file[pos..])
      decreases |file| - pos
    {
      var n := Min(BLOCK_SIZE, |file| - pos);
      var block := file[pos..pos + n];
      ghost var rest := Flatten(file[pos + n..]);
      FlattenFrom(file, pos);
      AppendAssoc(bin, Payload(block), rest);
      bin := bin + Payload(block);
      pos := pos + n;
    }
    assert file[pos..] == [];
  }

  /** Concatenation regroups freely. */
  lemma AppendAssoc(a: seq<byte>, b: seq<byte>, c: seq<byte>)
    ensures a + (b + c) == (a + b) + c
  {
  }

  /** A file made of the given blocks, back to back. */
  function Join(blocks: seq<seq<byte>>): seq<byte>
  {
    if blocks == [] then [] else blocks[0] + Join(blocks[1..])
  }

  /** The payload windows of whole blocks, concatenated in block order. */
  function Payloads(blocks: seq<seq<byte>>): seq<byte>
    requires forall i :: 0 <= i < |blocks| ==> |blocks[i]| == BLOCK_SIZE
  {
    if blocks == [] then []
    else blocks[0][HEADER_SIZE..HEADER_SIZE + DATA_SIZE] + Payloads(blocks[1..])
  }

  /** For a file of whole blocks, flattening yields exactly their payloads in order. */
  lemma {:induction false} FlattenBlocks(blocks: seq<seq<byte>>)
    requires forall i :: 0 <= i < |blocks| ==> |blocks[i]| == BLOCK_SIZE
    ensures Flatten(Join(blocks)) == Payloads(blocks)
  {
    if blocks != [] {
      var file := Join(blocks);
      assert file[..BLOCK_SIZE] == blocks[0] && file[BLOCK_SIZE..] == Join(blocks[1..]);
      FlattenBlocks(blocks[1..]);
    }
  }

  /** k whole blocks flatten to 256*k bytes, and payload i sits at offset 256*i. */
  lemma {:induction false} PayloadsLayout(blocks: seq<seq<byte>>)
    requires forall i :: 0 <= i < |blocks| ==> |blocks[i]| == BLOCK_SIZE
    ensures |Payloads(blocks)| == DATA_SIZE * |blocks|
    ensures forall i :: 0 <= i < |blocks| ==>
      Payloads(blocks)[DATA_SIZE * i..DATA_SIZE * i + DATA_SIZE] == blocks[i][HEADER_SIZE..HEADER_SIZE + DATA_SIZE]
  {
    if blocks != [] {
      PayloadsLayout(blocks[1..]);
      var p := Payloads(blocks);
      var rest := Payloads(blocks[1..]);
      assert p == blocks[0][HEADER_SIZE..HEADER_SIZE + DATA_SIZE] + rest;
      forall i | 0 <= i < |blocks|
        ensures p[DATA_SIZE * i..DATA_SIZE * i + DATA_SIZE] == blocks[i][HEADER_SIZE..HEADER_SIZE + DATA_SIZE]
      {
        if i > 0 {
          assert blocks[1..][i - 1] == blocks[i];
          assert p[DATA_SIZE * i..DATA_SIZE * i + DATA_SIZE] == rest[DATA_SIZE * (i - 1)..DATA_SIZE * (i - 1) + DATA_SIZE];
        }
      }
    }
  }
}
