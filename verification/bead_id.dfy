/** The BeadId format check of the `GET /:beadId` handler: the path segment
    must match the regular expression `^[A-Z0-9]{8}$`. */
module BeadIds {

  /** Number of characters in a BeadId. */
  const IdLength: nat := 8

  /** The character class `[A-Z0-9]`: ASCII upper-case letters and digits only. */
  predicate IsIdChar(c: char) {
    ('A' <= c <= 'Z') || ('0' <= c <= '9')
  }

  /** The declarative meaning of the pattern: exactly eight characters, each
      in the class. */
  predicate IsWellFormed(s: string) {
    |s| == IdLength && forall i :: 0 <= i < |s| ==> IsIdChar(s[i])
  }

  /** Scans the class `[A-Z0-9]` over the whole string, one character at a
      time, as the regular-expression engine does. */
  function ScanClass(s: string): (ok: bool)
    ensures ok <==> forall i :: 0 <= i < |s| ==> IsIdChar(s[i])
  {
    if |s| == 0 then true
    else IsIdChar(s[0]) && ScanClass(s[1..])
  }

  /** The anchored test `/^[A-Z0-9]{8}$/.test(s)`: the length is checked
      against the fixed repetition count and the class is scanned. Since the
      pattern has no multiline flag, `$` matches only at the end of input, so
      a trailing newline is rejected like any other character. */
  function MatchesIdPattern(s: string): (ok: bool)
    ensures ok <==> IsWellFormed(s)
  {
    |s| == IdLength && ScanClass(s)
  }

  /** Any character outside the class anywhere in the segment, a lower-case
      letter included, makes the test fail. */
  lemma ForeignCharRejected(s: string, i: int)
    requires 0 <= i < |s| && !IsIdChar(s[i])
    ensures !MatchesIdPattern(s)
  {
  }

  /** The two example identifiers: one upper-case id accepted, one with
      lower-case letters rejected. */
  lemma PatternExamples()
    ensures MatchesIdPattern("AB12CD34")
    ensures !MatchesIdPattern("zz999999")
    ensures !MatchesIdPattern("AB12CD3")
    ensures !MatchesIdPattern("AB12CD345")
  {
    assert !IsIdChar("zz999999"[0]);
  }
}
