/**
 Format detection: a status blob is classified by fixed prefixes of its
 first 18 elements, checked in a fixed priority order. The blob is text, so
 an element is a character where Go peeks at bytes; the prefixes are ASCII,
 so the classification is the same either way.
 */
module Detector {
  import opened Text

  /** The status formats the decoders understand. */
  datatype Format =
    | ServerComma   // server status, format version 2
    | ServerTab     // server status, format version 3
    | ClientStats   // client statistics

  datatype Detection = Found(format: Format) | Unknown(lead: string)

  /** How many elements the detector peeks at. */
  const PeekLength: nat := 18

  const ServerCommaPrefix := "TITLE,"
  const ServerTabPrefix := "TITLE\t"
  const ClientPrefix := "OpenVPN STATISTICS"

  /** What `Peek(18)` returns: the first 18 elements, or all of a shorter blob. */
  function Peek(blob: string): (r: string)
    ensures r <= blob
    ensures |r| == if |blob| < PeekLength then |blob| else PeekLength
  {
    if |blob| < PeekLength then blob else blob[..PeekLength]
  }

  /** Classifies a blob by the prefixes of its peeked elements, in order:
      "TITLE," then "TITLE\t" then "OpenVPN STATISTICS"; otherwise the
      peeked elements are reported. */
  function Detect(blob: string): (r: Detection)
    ensures r == Found(ServerComma) <==> HasPrefix(blob, ServerCommaPrefix)
    ensures r == Found(ServerTab) <==> HasPrefix(blob, ServerTabPrefix)
    ensures r == Found(ClientStats) <==> HasPrefix(blob, ClientPrefix)
    ensures r.Unknown? <==>
      !HasPrefix(blob, ServerCommaPrefix) && !HasPrefix(blob, ServerTabPrefix) && !HasPrefix(blob, ClientPrefix)
    ensures r.Unknown? ==> r.lead == Peek(blob)
  {
    var buf := Peek(blob);
    PrefixOfPeek(blob, ServerCommaPrefix);
    PrefixOfPeek(blob, ServerTabPrefix);
    PrefixOfPeek(blob, ClientPrefix);
    if HasPrefix(buf, ServerCommaPrefix) then Found(ServerComma)
    else if HasPrefix(buf, ServerTabPrefix) then Found(ServerTab)
    else if HasPrefix(buf, ClientPrefix) then Found(ClientStats)
    else Unknown(buf)
  }

  /** A prefix no longer than the peek length is a prefix of the peeked
      elements exactly when it is a prefix of the whole blob. */
  lemma PrefixOfPeek(blob: string, prefix: string)
    requires |prefix| <= PeekLength
    ensures HasPrefix(Peek(blob), prefix) <==> HasPrefix(blob, prefix)
  {
    if |blob| >= PeekLength && |prefix| <= |blob| {
      assert Peek(blob)[..|prefix|] == blob[..|prefix|];
    }
  }

  /** Only the first 18 elements decide: blobs that agree there are detected
      alike, whatever follows. */
  lemma {:induction false} DetectSeesOnlyPeek(a: string, b: string)
    requires Peek(a) == Peek(b)
    ensures Detect(a) == Detect(b)
  {
    PrefixOfPeek(a, ServerCommaPrefix);
    PrefixOfPeek(a, ServerTabPrefix);
    PrefixOfPeek(a, ClientPrefix);
    PrefixOfPeek(b, ServerCommaPrefix);
    PrefixOfPeek(b, ServerTabPrefix);
    PrefixOfPeek(b, ClientPrefix);
  }
}
