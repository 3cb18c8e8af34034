/** The stored form of a recipient list: one newline-joined column. */
module Recipients {
  import opened Text

  function Encode(to: seq<string>): string {
    Join(to, "\n")
  }

  function Decode(raw: string): seq<string> {
    if raw == "" then [] else Split(raw, '\n')
  }

  /** The column gives the list back exactly when no address holds a newline and the list
      is not the single empty address. */
  lemma DecodeEncode(to: seq<string>)
    ensures Decode(Encode(to)) == to <==> to != [""] && forall i :: 0 <= i < |to| ==> '\n' !in to[i]
  {
    if Encode(to) == "" {
      JoinEmpty(to, '\n');
    } else if forall i :: 0 <= i < |to| ==> '\n' !in to[i] {
      SplitJoin(to, '\n');
    }
  }

  /** Lists an SMTP session can accumulate: non-empty, of non-empty newline-free addresses. */
  predicate WellAddressed(to: seq<string>) {
    to != [] && forall i :: 0 <= i < |to| ==> to[i] != "" && '\n' !in to[i]
  }

  lemma WellAddressedRoundTrip(to: seq<string>)
    requires WellAddressed(to)
    ensures Decode(Encode(to)) == to
  {
    DecodeEncode(to);
  }
}
