/** The file-name sanitiser used for per-step dump files of the run log. */
module RunLog {
  import opened PyStr

  /** The maximum length of a sanitised name. */
  const MaxNameLength: nat := 180

  /** A character kept as it is: alphanumeric or one of `.`, `_`, `-`, `+`. */
  predicate SafeChar(c: char) {
    IsAlnum(c) || c == '.' || c == '_' || c == '-' || c == '+'
  }

  /** Every character replaced by itself when safe and by `_` otherwise. */
  function Replaced(s: string): (r: string)
    ensures |r| == |s|
    ensures forall i :: 0 <= i < |s| ==> r[i] == (if SafeChar(s[i]) then s[i] else '_')
  {
    if s == [] then "" else [if SafeChar(s[0]) then s[0] else '_'] + Replaced(s[1..])
  }

  /**
   * `_safe_name(s)`: replace unsafe characters by `_`, then keep the first
   * 180 characters. Every character of the result is safe, and a safe input
   * character keeps its position.
   */
  function SafeName(s: string): (r: string)
    ensures |r| == if |s| < MaxNameLength then |s| else MaxNameLength
    ensures forall i :: 0 <= i < |r| ==> SafeChar(r[i])
    ensures forall i :: 0 <= i < |r| ==> (SafeChar(s[i]) ==> r[i] == s[i]) && (!SafeChar(s[i]) ==> r[i] == '_')
  {
    var full := Replaced(s);
    if |full| <= MaxNameLength then full else full[..MaxNameLength]
  }

  /** Sanitising an already sanitised name changes nothing. */
  lemma SafeNameIdempotent(s: string)
    ensures SafeName(SafeName(s)) == SafeName(s)
  {
    var r := SafeName(s);
    var rr := SafeName(r);
    assert |rr| == |r|;
    forall i | 0 <= i < |r| ensures rr[i] == r[i] {
      assert SafeChar(r[i]);
    }
  }
}
