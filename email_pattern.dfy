/** The email gate shared by both pages: the input is trimmed, a blank
    input is refused, and otherwise the unanchored regular expression
    `/\S+@\S+\.\S+/` must find a match somewhere in the trimmed text. */
module EmailGate {
  import opened Text

  const BlankMessage := "Por favor ingresa tu correo electrónico."
  const MalformedMessage := "Ingresa un correo electrónico válido."
  /** Set by the send handlers when no address has been typed at all. */
  const MissingMessage := "Agrega tu correo para continuar."

  /** One match of `\S+@\S+\.\S+` inside `s`: the first `\S+` covers
      `s[a..p)`, the second `s[p+1..d)`, and the last one starts at `d+1`
      (one character is enough for a match to exist). */
  predicate MatchAt(s: string, a: int, p: int, d: int) {
    0 <= a < p && p + 1 < d && d + 1 < |s|
    && (forall k | a <= k < p :: !IsWs(s[k]))
    && s[p] == '@'
    && (forall k | p + 1 <= k < d :: !IsWs(s[k]))
    && s[d] == '.'
    && !IsWs(s[d + 1])
  }

  /** The pattern matches `s` somewhere (it is not anchored). */
  ghost predicate EmailShape(s: string) {
    exists a, p, d :: MatchAt(s, a, p, d)
  }

  /** A '.' at some index `d >= i`, reached from `i` through non-whitespace
      only, with a non-whitespace character right after it. */
  predicate DotFrom(s: string, i: nat)
    decreases |s| - i
  {
    i + 1 < |s| && !IsWs(s[i]) && ((s[i] == '.' && !IsWs(s[i + 1])) || DotFrom(s, i + 1))
  }

  /** An '@' at index `p` that has a non-whitespace character before it and
      a non-empty non-whitespace run ending in a '.' domain after it. */
  predicate AtMatches(s: string, p: nat) {
    1 <= p && p + 1 < |s| && s[p] == '@' && !IsWs(s[p - 1]) && !IsWs(s[p + 1])
    && DotFrom(s, p + 2)
  }

  /** Some '@' at index `p` or later matches. */
  predicate AtFrom(s: string, p: nat)
    decreases |s| - p
  {
    p < |s| && (AtMatches(s, p) || AtFrom(s, p + 1))
  }

  /** `/\S+@\S+\.\S+/.test(s)`: a left-to-right search for a match. */
  predicate Test(s: string) {
    AtFrom(s, 0)
  }

  predicate DotAt(s: string, i: int, d: int) {
    0 <= i <= d && d + 1 < |s|
    && (forall k | i <= k < d :: !IsWs(s[k]))
    && s[d] == '.' && !IsWs(s[d + 1])
  }

  lemma {:induction false} DotFromSpec(s: string, i: nat)
    ensures DotFrom(s, i) <==> exists d :: DotAt(s, i, d)
    decreases |s| - i
  {
    if DotFrom(s, i) {
      if s[i] == '.' && !IsWs(s[i + 1]) {
        assert DotAt(s, i, i);
      } else {
        DotFromSpec(s, i + 1);
        var d :| DotAt(s, i + 1, d);
        assert DotAt(s, i, d);
      }
    }
    if exists d :: DotAt(s, i, d) {
      var d :| DotAt(s, i, d);
      if d > i {
        DotFromSpec(s, i + 1);
        assert DotAt(s, i + 1, d);
      }
    }
  }

  lemma AtMatchesSpec(s: string, p: nat)
    ensures AtMatches(s, p) <==> exists a, d :: MatchAt(s, a, p, d)
  {
    if AtMatches(s, p) {
      DotFromSpec(s, p + 2);
      var d :| DotAt(s, p + 2, d);
      assert MatchAt(s, p - 1, p, d);
    }
    if exists a, d :: MatchAt(s, a, p, d) {
      var a, d :| MatchAt(s, a, p, d);
      assert DotAt(s, p + 2, d);
      DotFromSpec(s, p + 2);
    }
  }

  lemma {:induction false} AtFromSpec(s: string, p: nat)
    ensures AtFrom(s, p) <==> exists a, q, d :: p <= q && MatchAt(s, a, q, d)
    decreases |s| - p
  {
    if p < |s| {
      AtFromSpec(s, p + 1);
      AtMatchesSpec(s, p);
      if exists a, q, d :: p <= q && MatchAt(s, a, q, d) {
        var a, q, d :| p <= q && MatchAt(s, a, q, d);
        if q > p {
          assert p + 1 <= q && MatchAt(s, a, q, d);
        }
      }
    } else {
      assert forall a, q, d | p <= q :: !MatchAt(s, a, q, d);
    }
  }

  /** The search decides the pattern: it succeeds exactly when a match
      exists. */
  lemma TestIsEmailShape(s: string)
    ensures Test(s) <==> EmailShape(s)
  {
    AtFromSpec(s, 0);
  }

  /** A match inside the infix `s[lo..hi]` is a match inside `s`. */
  lemma MatchWiden(s: string, lo: nat, hi: nat, a: int, p: int, d: int)
    requires lo <= hi <= |s| && MatchAt(s[lo..hi], a, p, d)
    ensures MatchAt(s, a + lo, p + lo, d + lo)
  {
    var t := s[lo..hi];
    assert forall k | 0 <= k < |t| :: t[k] == s[k + lo];
  }

  /** A match of `s` that lies within `[lo, hi)` is a match of `s[lo..hi]`. */
  lemma MatchNarrow(s: string, lo: nat, hi: nat, a: int, p: int, d: int)
    requires lo <= a && d + 1 < hi <= |s| && MatchAt(s, a, p, d)
    ensures MatchAt(s[lo..hi], a - lo, p - lo, d - lo)
  {
    var t := s[lo..hi];
    assert forall k | 0 <= k < |t| :: t[k] == s[k + lo];
  }

  /** A match contains no whitespace, so it survives trimming and trimming
      cannot create one: testing the trimmed input is testing the input. */
  lemma TrimKeepsShape(s: string)
    ensures EmailShape(Trim(s)) <==> EmailShape(s)
  {
    var lo, hi := TrimSpan(s);
    if EmailShape(Trim(s)) {
      var a, p, d :| MatchAt(s[lo..hi], a, p, d);
      MatchWiden(s, lo, hi, a, p, d);
    }
    if EmailShape(s) {
      var a, p, d :| MatchAt(s, a, p, d);
      assert !IsWs(s[a]) && !IsWs(s[d + 1]);
      assert lo <= a && d + 1 < hi;
      MatchNarrow(s, lo, hi, a, p, d);
    }
  }

  /** A match needs non-whitespace characters, so blank input never
      matches. */
  lemma BlankNeverMatches(s: string)
    ensures EmailShape(s) ==> !AllWs(s)
  {
    if EmailShape(s) {
      var a, p, d :| MatchAt(s, a, p, d);
      assert !IsWs(s[p]);
    }
  }

  /** The three outcomes of submitting the email form. */
  datatype Verdict = Blank | Malformed | Accepted

  /** The checks the submit handler makes, in order: blank after trimming,
      then no match of the pattern in the trimmed text. */
  function CheckEmail(email: string): (v: Verdict)
    ensures v == Blank <==> AllWs(email)
    ensures v == Accepted <==> EmailShape(email)
    ensures v == Accepted <==> EmailShape(Trim(email))
  {
    var t := Trim(email);
    TrimEmptyIffAllWs(email);
    TestIsEmailShape(t);
    TrimKeepsShape(email);
    BlankNeverMatches(email);
    if t == [] then Blank
    else if !Test(t) then Malformed
    else Accepted
  }

  /** The message shown under the field for a refused input. */
  function VerdictMessage(v: Verdict): string
    requires v != Accepted
  {
    if v == Blank then BlankMessage else MalformedMessage
  }

  /** A plain address passes. */
  lemma AcceptedExample()
    ensures CheckEmail("ana@correo.mx") == Accepted
  {
    assert MatchAt("ana@correo.mx", 0, 3, 10);
  }

  /** Spaces alone are refused as blank, not as malformed. */
  lemma BlankExample()
    ensures CheckEmail("   ") == Blank
  {
  }

  /** An address without a dot after the '@' is refused as malformed. */
  lemma MalformedExample()
    ensures CheckEmail("ana@correo") == Malformed
  {
    var s := "ana@correo";
    assert !IsWs(s[0]);
    forall a, p, d ensures !MatchAt(s, a, p, d) {
      if 0 <= d < |s| { assert s[d] != '.'; }
    }
  }
}
