/** The string built-ins the pages rely on: `String.prototype.trim`,
    `split` on a one-character separator, `includes` and `toUpperCase`. */
module Text {

  /** ECMAScript WhiteSpace and LineTerminator code points. This is the set
      `trim` strips from both ends and the set the regular-expression class
      `\s` matches, so `\S` is exactly `!IsWs`. */
  predicate IsWs(c: char) {
    c == '\t' || c == '\n' || c == '\U{000B}' || c == '\U{000C}' || c == '\r' || c == ' '
    || c == '\U{00A0}' || c == '\U{1680}' || ('\U{2000}' <= c <= '\U{200A}')
    || c == '\U{2028}' || c == '\U{2029}' || c == '\U{202F}' || c == '\U{205F}'
    || c == '\U{3000}' || c == '\U{FEFF}'
  }

  predicate AllWs(s: string) {
    forall i | 0 <= i < |s| :: IsWs(s[i])
  }

  /** Drops the leading whitespace: what remains is a suffix of `s` that is
      empty or starts with a non-whitespace character. */
  function TrimStart(s: string): (r: string)
    ensures |r| <= |s| && r == s[|s| - |r|..]
    ensures AllWs(s[..|s| - |r|])
    ensures r == [] || !IsWs(r[0])
  {
    if s != [] && IsWs(s[0]) then
      var r := TrimStart(s[1..]);
      assert s[..|s| - |r|] == [s[0]] + s[1..][..|s| - 1 - |r|];
      r
    else
      s
  }

  /** Drops the trailing whitespace: what remains is a prefix of `s` that is
      empty or ends with a non-whitespace character. */
  function TrimEnd(s: string): (r: string)
    ensures |r| <= |s| && r == s[..|r|]
    ensures AllWs(s[|r|..])
    ensures r == [] || !IsWs(r[|r| - 1])
  {
    if s != [] && IsWs(s[|s| - 1]) then
      var r := TrimEnd(s[..|s| - 1]);
      assert s[|r|..] == s[..|s| - 1][|r|..] + [s[|s| - 1]];
      r
    else
      s
  }

  /** `s.trim()`. */
  function Trim(s: string): (r: string)
    ensures r == [] || (!IsWs(r[0]) && !IsWs(r[|r| - 1]))
  {
    TrimEnd(TrimStart(s))
  }

  /** `Trim(s)` is the infix `s[lo..hi]`, and everything outside it is
      whitespace. */
  lemma TrimSpan(s: string) returns (lo: nat, hi: nat)
    ensures lo <= hi <= |s| && Trim(s) == s[lo..hi]
    ensures forall k | 0 <= k < lo :: IsWs(s[k])
    ensures forall k | hi <= k < |s| :: IsWs(s[k])
  {
    var t := TrimStart(s);
    var u := TrimEnd(t);
    lo := |s| - |t|;
    hi := lo + |u|;
    assert t == s[lo..];
    assert u == t[..|u|];
    forall k | 0 <= k < lo
      ensures IsWs(s[k])
    {
      assert s[..lo][k] == s[k];
    }
    forall k | hi <= k < |s|
      ensures IsWs(s[k])
    {
      assert t[|u|..][k - hi] == s[k];
    }
  }

  /** Trimming strips exactly the whitespace: the result is empty if and
      only if the whole input is whitespace. */
  lemma TrimEmptyIffAllWs(s: string)
    ensures Trim(s) == [] <==> AllWs(s)
  {
    var lo, hi := TrimSpan(s);
    if Trim(s) == [] {
      assert lo == hi;
    } else {
      assert s[lo] == Trim(s)[0];
    }
  }

  /** Text with no whitespace at either end is left as it is. */
  lemma TrimClean(s: string)
    requires s == [] || (!IsWs(s[0]) && !IsWs(s[|s| - 1]))
    ensures Trim(s) == s
  {
  }

  /** Trimming twice is trimming once. */
  lemma TrimIdempotent(s: string)
    ensures Trim(Trim(s)) == Trim(s)
  {
  }

  /** `s.split(sep)`: the pieces between consecutive separators, always at
      least one. */
  function Split(s: string, sep: char): (parts: seq<string>)
    ensures |parts| >= 1
    ensures forall i | 0 <= i < |parts| :: sep !in parts[i]
  {
    if s == [] then [""]
    else
      var rest := Split(s[1..], sep);
      if s[0] == sep then [""] + rest
      else [[s[0]] + rest[0]] + rest[1..]
  }

  /** `parts.join(sep)`. */
  function Join(parts: seq<string>, sep: char): string
    requires |parts| >= 1
  {
    if |parts| == 1 then parts[0] else parts[0] + [sep] + Join(parts[1..], sep)
  }

  /** Splitting loses nothing: joining the pieces back gives the input. */
  lemma {:induction false} JoinSplit(s: string, sep: char)
    ensures Join(Split(s, sep), sep) == s
  {
    if s != [] {
      var rest := Split(s[1..], sep);
      JoinSplit(s[1..], sep);
      if s[0] == sep {
        assert Split(s, sep)[1..] == rest;
      } else {
        var parts := Split(s, sep);
        if |rest| == 1 {
          assert parts == [[s[0]] + rest[0]];
        } else {
          assert parts[1..] == rest[1..];
          assert Join(rest, sep) == rest[0] + [sep] + Join(rest[1..], sep);
        }
      }
    }
  }

  /** Pieces that contain no separator are recovered by splitting their
      join. */
  lemma {:induction false} SplitJoin(parts: seq<string>, sep: char)
    requires |parts| >= 1
    requires forall i | 0 <= i < |parts| :: sep !in parts[i]
    ensures Split(Join(parts, sep), sep) == parts
  {
    if |parts| == 1 {
      SplitNoSep(parts[0], sep);
    } else {
      SplitJoin(parts[1..], sep);
      SplitPrefix(parts[0], Join(parts[1..], sep), sep);
      assert [parts[0]] + parts[1..] == parts;
    }
  }

  /** A string with no separator splits into itself. */
  lemma {:induction false} SplitNoSep(s: string, sep: char)
    requires sep !in s
    ensures Split(s, sep) == [s]
  {
    if s != [] {
      assert sep !in s[1..] by { assert forall c | c in s[1..] :: c in s; }
      SplitNoSep(s[1..], sep);
      assert [s[0]] + s[1..] == s;
    }
  }

  /** Splitting `a + [sep] + b`, where `a` has no separator, gives `a`
      followed by the pieces of `b`. */
  lemma {:induction false} SplitPrefix(a: string, b: string, sep: char)
    requires sep !in a
    ensures Split(a + [sep] + b, sep) == [a] + Split(b, sep)
  {
    if a != [] {
      assert sep !in a[1..] by { assert forall c | c in a[1..] :: c in a; }
      SplitPrefix(a[1..], b, sep);
      assert (a + [sep] + b)[1..] == a[1..] + [sep] + b;
      assert [a[0]] + a[1..] == a;
    } else {
      assert (a + [sep] + b)[1..] == b;
    }
  }

  /** `t` occurs in `s` at index `i`. */
  predicate OccursAt(s: string, t: string, i: nat) {
    i + |t| <= |s| && s[i..i + |t|] == t
  }

  /** `s.includes(t)`: some occurrence of `t` in `s`. */
  predicate Contains(s: string, t: string)
    ensures Contains(s, t) <==> exists i: nat :: OccursAt(s, t, i)
  {
    ContainsFrom(s, t, 0)
  }

  /** An occurrence of `t` in `s` at index `from` or later. */
  predicate ContainsFrom(s: string, t: string, from: nat)
    decreases |s| - from
    ensures ContainsFrom(s, t, from) <==> exists i: nat :: from <= i && OccursAt(s, t, i)
  {
    if from + |t| > |s| then false
    else if s[from..from + |t|] == t then assert OccursAt(s, t, from); true
    else
      assert forall i: nat | from <= i && OccursAt(s, t, i) :: from + 1 <= i;
      ContainsFrom(s, t, from + 1)
  }

  /** Upper-case form of one character: ASCII a–z and the Latin-1 letters
      à–þ (except ÷) move to their capitals; every other character stays. */
  function UpperChar(c: char): (u: char)
    ensures IsLower(c) ==> !IsLower(u) && u != c
    ensures !IsLower(c) ==> u == c
    // Each lower-case letter becomes its own capital.
    ensures 'a' <= c <= 'z' ==> u == AsciiCapitals[c as int - 'a' as int]
    ensures '\U{00E0}' <= c <= '\U{00F6}' ==> u == Latin1Capitals[c as int - 0xE0]
    ensures '\U{00F8}' <= c <= '\U{00FE}' ==> u == Latin1Capitals[c as int - 0xE1]
  {
    if IsLower(c) then (c as int - 32) as char else c
  }

  /** The capitals of `a`..`z`, in order. */
  const AsciiCapitals := "ABCDEFGHIJKLMNOPQRSTUVWXYZ"
  /** The capitals of the Latin-1 lower-case letters `à`..`ö` and `ø`..`þ`,
      in order. */
  const Latin1Capitals := "ÀÁÂÃÄÅÆÇÈÉÊËÌÍÎÏÐÑÒÓÔÕÖØÙÚÛÜÝÞ"

  predicate IsLower(c: char) {
    ('a' <= c <= 'z') || ('\U{00E0}' <= c <= '\U{00FE}' && c != '\U{00F7}')
  }

  /** `s.toUpperCase()` on the characters `UpperChar` covers. */
  function Upper(s: string): (r: string)
    ensures |r| == |s|
    ensures forall i | 0 <= i < |s| :: r[i] == UpperChar(s[i])
  {
    seq(|s|, i requires 0 <= i < |s| => UpperChar(s[i]))
  }

  /** A fruit name with an accented letter is upper-cased letter by
      letter. */
  lemma UpperExample()
    ensures Upper("manzana ñ") == "MANZANA Ñ"
  {
    var s := "manzana ñ";
    assert forall i | 0 <= i < |s| :: Upper(s)[i] == "MANZANA Ñ"[i];
  }

  /** Upper-casing leaves no lower-case letter behind, so doing it twice is
      doing it once. */
  lemma UpperIdempotent(s: string)
    ensures forall i | 0 <= i < |s| :: !IsLower(Upper(s)[i])
    ensures Upper(Upper(s)) == Upper(s)
  {
  }
}
