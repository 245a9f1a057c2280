/**
 * The JavaScript string and number built-ins that the application's helpers
 * rely on, restricted to ASCII text: `Number.prototype.toString()` on a
 * non-negative integer, `padStart(2, '0')`, `toLowerCase()`, `split(sep)` with
 * a one-character separator, `join`, `startsWith` and `substring(0, n)`.
 */
module Text {
  import opened Wrappers

  /** JavaScript truthiness of an optional string: present and non-empty. */
  predicate Truthy(s: Option<string>) {
    s.Some? && s.value != ""
  }

  predicate IsDigit(c: char) {
    '0' <= c <= '9'
  }

  predicate AllDigits(s: string) {
    forall i :: 0 <= i < |s| ==> IsDigit(s[i])
  }

  function DigitChar(d: nat): (c: char)
    requires d < 10
    ensures IsDigit(c) && c as int - '0' as int == d
  {
    ('0' as int + d) as char
  }

  /** Decimal rendering of a natural number, as `n.toString()` gives it. */
  function NatToString(n: nat): (s: string)
    ensures |s| >= 1 && AllDigits(s)
    ensures s[0] == '0' <==> n == 0
    decreases n
  {
    if n < 10 then [DigitChar(n)] else NatToString(n / 10) + [DigitChar(n % 10)]
  }

  /** The value of a string of decimal digits (the empty string is 0). */
  function DigitsValue(s: string): nat
    requires AllDigits(s)
    decreases |s|
  {
    if s == [] then 0 else DigitsValue(s[..|s| - 1]) * 10 + (s[|s| - 1] as int - '0' as int)
  }

  /** Reading back the decimal rendering gives the number: `NatToString` is injective. */
  lemma {:induction false} DigitsValueOfNatToString(n: nat)
    ensures DigitsValue(NatToString(n)) == n
  {
    var s := NatToString(n);
    if n >= 10 {
      assert s[..|s| - 1] == NatToString(n / 10);
      DigitsValueOfNatToString(n / 10);
    }
  }

  /** `s.padStart(2, '0')`: left-pads with '0' up to length 2; longer strings are returned as they are. */
  function PadStart2(s: string): (r: string)
    ensures |r| == if |s| >= 2 then |s| else 2
    ensures r[|r| - |s|..] == s
    ensures forall i :: 0 <= i < |r| - |s| ==> r[i] == '0'
  {
    if |s| >= 2 then s else seq(2 - |s|, _ => '0') + s
  }

  /** `toLowerCase()` on one ASCII character. */
  function LowerChar(c: char): char {
    if 'A' <= c <= 'Z' then (c as int + 32) as char else c
  }

  predicate IsLetter(c: char) {
    'A' <= c <= 'Z' || 'a' <= c <= 'z'
  }

  /** `s.toLowerCase()` over ASCII. */
  function Lower(s: string): (r: string)
    ensures |r| == |s|
    ensures forall i :: 0 <= i < |s| ==> r[i] == LowerChar(s[i])
  {
    if s == [] then [] else [LowerChar(s[0])] + Lower(s[1..])
  }

  predicate IsLowerCase(s: string) {
    forall i :: 0 <= i < |s| ==> !('A' <= s[i] <= 'Z')
  }

  lemma LowerIsLowerCase(s: string)
    ensures IsLowerCase(Lower(s)) && Lower(Lower(s)) == Lower(s)
  {
  }

  /**
   * `s.split(sep)` for a one-character separator: the pieces between
   * separators, empty pieces included, always at least one.
   */
  function Split(s: string, sep: char): (r: seq<string>)
    ensures |r| >= 1
    ensures forall i :: 0 <= i < |r| ==> sep !in r[i]
    decreases |s|
  {
    if s == [] then [""]
    else
      var rest := Split(s[1..], sep);
      if s[0] == sep then [""] + rest else [[s[0]] + rest[0]] + rest[1..]
  }

  /** `pieces.join(sep)`. */
  function Join(pieces: seq<string>, sep: char): string
    decreases |pieces|
  {
    if |pieces| == 0 then ""
    else if |pieces| == 1 then pieces[0]
    else pieces[0] + [sep] + Join(pieces[1..], sep)
  }

  /** Splitting loses nothing: joining the pieces with the separator gives the string back. */
  lemma {:induction false} JoinSplit(s: string, sep: char)
    ensures Join(Split(s, sep), sep) == s
  {
    if s != [] {
      var rest := Split(s[1..], sep);
      JoinSplit(s[1..], sep);
      if s[0] == sep {
        assert Split(s, sep)[1..] == rest;
      } else if |rest| > 1 {
        var r := Split(s, sep);
        assert r[1..] == rest[1..];
        assert Join(rest, sep) == rest[0] + [sep] + Join(rest[1..], sep);
      }
    }
  }

  /** The other direction: pieces free of the separator are recovered from their join. */
  lemma {:induction false} SplitJoin(pieces: seq<string>, sep: char)
    requires |pieces| >= 1
    requires forall i :: 0 <= i < |pieces| ==> sep !in pieces[i]
    ensures Split(Join(pieces, sep), sep) == pieces
    decreases |pieces|, |pieces[0]|
  {
    if |pieces| == 1 {
      SplitFree(pieces[0], sep);
    } else if pieces[0] == [] {
      var tail := Join(pieces[1..], sep);
      assert Join(pieces, sep) == [sep] + tail;
      assert ([sep] + tail)[1..] == tail;
      SplitJoin(pieces[1..], sep);
      assert [pieces[0]] + pieces[1..] == pieces;
    } else {
      var smaller := [pieces[0][1..]] + pieces[1..];
      assert Join(smaller, sep) == pieces[0][1..] + [sep] + Join(pieces[1..], sep);
      var j := Join(pieces, sep);
      assert j == [pieces[0][0]] + Join(smaller, sep);
      assert j[1..] == Join(smaller, sep);
      assert forall i :: 0 <= i < |smaller| ==> sep !in smaller[i] by {
        assert forall c :: c in pieces[0][1..] ==> c in pieces[0];
      }
      SplitJoin(smaller, sep);
      assert pieces[0][0] != sep;
      assert [pieces[0][0]] + smaller[0] == pieces[0];
      assert pieces == [[pieces[0][0]] + smaller[0]] + smaller[1..];
    }
  }

  /** A string without the separator splits into itself alone. */
  lemma {:induction false} SplitFree(s: string, sep: char)
    requires sep !in s
    ensures Split(s, sep) == [s]
    decreases |s|
  {
    if s != [] {
      assert sep !in s[1..] by {
        assert forall c :: c in s[1..] ==> c in s;
      }
      SplitFree(s[1..], sep);
      assert [s[0]] + s[1..] == s;
    }
  }

  function Last<T>(xs: seq<T>): T
    requires |xs| >= 1
  {
    xs[|xs| - 1]
  }

  /**
   * `s.split(sep).pop()` is the text after the last separator: a suffix of
   * `s` without the separator that is either all of `s` or preceded by a separator.
   */
  lemma {:induction false} LastPieceIsTail(s: string, sep: char)
    ensures var w := Last(Split(s, sep));
      |w| <= |s| && s[|s| - |w|..] == w && sep !in w &&
      (|w| == |s| || s[|s| - |w| - 1] == sep) &&
      (|w| == |s| <==> |Split(s, sep)| == 1)
    decreases |s|
  {
    if s != [] {
      LastPieceIsTail(s[1..], sep);
      var rest := Split(s[1..], sep);
      var w := Last(rest);
      if s[0] == sep || |rest| > 1 {
        assert Last(Split(s, sep)) == w;
        assert s[|s| - |w|..] == s[1..][|s| - 1 - |w|..];
        if |w| < |s| - 1 {
          assert s[|s| - |w| - 1] == s[1..][|s| - 1 - |w| - 1];
        }
      } else {
        assert Last(Split(s, sep)) == [s[0]] + w;
        assert s == [s[0]] + s[1..];
      }
    }
  }

  /** One step of `Split`: the first character either starts a new piece or joins the first piece. */
  lemma SplitCons(c: char, t: string, sep: char)
    ensures Split([c] + t, sep) ==
      if c == sep then [""] + Split(t, sep) else [[c] + Split(t, sep)[0]] + Split(t, sep)[1..]
  {
    assert ([c] + t)[1..] == t;
  }

  /** Lower-cases every piece. */
  function LowerAll(pieces: seq<string>): (r: seq<string>)
    ensures |r| == |pieces|
    ensures |pieces| >= 1 ==> Last(r) == Lower(Last(pieces))
    decreases |pieces|
  {
    if pieces == [] then [] else [Lower(pieces[0])] + LowerAll(pieces[1..])
  }

  /** Lower-casing commutes with splitting on a separator that is not a letter. */
  lemma {:induction false} SplitLower(s: string, sep: char)
    requires !IsLetter(sep)
    ensures Split(Lower(s), sep) == LowerAll(Split(s, sep))
    decreases |s|
  {
    if s != [] {
      var c, t := s[0], s[1..];
      SplitLower(t, sep);
      assert s == [c] + t;
      assert Lower(s) == [LowerChar(c)] + Lower(t);
      SplitCons(c, t, sep);
      SplitCons(LowerChar(c), Lower(t), sep);
      var rest := Split(t, sep);
      if c == sep {
        assert ([""] + rest)[1..] == rest;
      } else {
        var r := [[c] + rest[0]] + rest[1..];
        assert r[1..] == rest[1..];
        assert ([c] + rest[0])[1..] == rest[0];
        assert Lower([c] + rest[0]) == [LowerChar(c)] + Lower(rest[0]);
      }
    }
  }

  /** `s.startsWith(prefix)`. */
  predicate StartsWith(s: string, prefix: string) {
    |prefix| <= |s| && s[..|prefix|] == prefix
  }

  /** `s.substring(0, n)` for `n >= 0`. */
  function Take(s: string, n: nat): (r: string)
    ensures |r| <= n && r <= s
    ensures |r| == if n <= |s| then n else |s|
  {
    if n <= |s| then s[..n] else s
  }
}
