/** The chunked-transport modes two peers propose to each other. */
module ChunkModes {
  import opened Bytes
  import opened Wire

  // "chunked", "notchunked" and "chunked_optional"
  const CHUNKED: seq<byte> := [99, 104, 117, 110, 107, 101, 100]
  const NOT_CHUNKED: seq<byte> := [110, 111, 116, 99, 104, 117, 110, 107, 101, 100]
  const CHUNKED_OPTIONAL: seq<byte> := [99, 104, 117, 110, 107, 101, 100, 95, 111, 112, 116, 105, 111, 110, 97, 108]

  lemma ModesByName()
    ensures CHUNKED == Ascii("chunked")
    ensures NOT_CHUNKED == Ascii("notchunked")
    ensures CHUNKED_OPTIONAL == Ascii("chunked_optional")
  {
  }

  lemma ModesDiffer()
    ensures |CHUNKED| == 7 && |NOT_CHUNKED| == 10 && |CHUNKED_OPTIONAL| == 16
  {
  }

  /** The mode two proposals settle on. */
  function Resolve(ours: seq<byte>, theirs: seq<byte>): (mode: seq<byte>)
    ensures mode == CHUNKED <==> Willing(ours) && Willing(theirs)
    ensures mode == [] <==> ours == [] || theirs == []
    ensures mode in {[], NOT_CHUNKED, CHUNKED}
  {
    ModesDiffer();
    if ours == [] || theirs == [] then []
    else if ours == NOT_CHUNKED || theirs == NOT_CHUNKED then NOT_CHUNKED
    else CHUNKED
  }

  /** A proposal that does not rule chunking out. */
  predicate Willing(proposal: seq<byte>) { proposal != [] && proposal != NOT_CHUNKED }
}
