/**
 * Small string toolkit shared by the models: Python's whitespace tests,
 * `strip`, ASCII `lower`, `split`/`join`, substring search and decimal
 * numerals. Strings are sequences of Unicode scalar values, as Python `str`
 * indexes them.
 */
module Common {

  datatype Option<T> = None | Some(value: T)

  datatype Result<T, E> = Ok(value: T) | Err(error: E)

  function Min(a: int, b: int): int { if a <= b then a else b }

  function Max(a: int, b: int): int { if a >= b then a else b }
}

module Text {

  import opened Common

  /**
   * The ASCII characters Python's `str.isspace` and regex `\s` accept: space,
   * tab, newline, carriage return, vertical tab, form feed and the four
   * separators 0x1C to 0x1F.
   */
  predicate IsSpace(c: char) {
    c == ' ' || c == '\t' || c == '\n' || c == '\r' || c == '\U{000B}' || c == '\U{000C}' || '\U{001C}' <= c <= '\U{001F}'
  }

  /** `s.strip() == ''`: the line holds nothing but whitespace. */
  predicate IsBlank(s: string) {
    forall i | 0 <= i < |s| :: IsSpace(s[i])
  }

  function LStrip(s: string): (r: string)
    ensures |r| <= |s| && r == s[|s| - |r|..]
    ensures r == [] || !IsSpace(r[0])
    ensures forall i | 0 <= i < |s| - |r| :: IsSpace(s[i])
  {
    if |s| > 0 && IsSpace(s[0]) then LStrip(s[1..]) else s
  }

  function RStrip(s: string): (r: string)
    ensures |r| <= |s| && r == s[..|r|]
    ensures r == [] || !IsSpace(r[|r| - 1])
    ensures forall i | |r| <= i < |s| :: IsSpace(s[i])
  {
    if |s| > 0 && IsSpace(s[|s| - 1]) then RStrip(s[..|s| - 1]) else s
  }

  /** Python's `str.strip()` (for ASCII whitespace). */
  function Strip(s: string): (r: string)
    ensures r == [] || (!IsSpace(r[0]) && !IsSpace(r[|r| - 1]))
    ensures |r| <= |s|
  {
    RStrip(LStrip(s))
  }

  /** Stripping leaves nothing exactly when the string is all whitespace. */
  lemma StripEmptyIffBlank(s: string)
    ensures Strip(s) == [] <==> IsBlank(s)
  {
    var l := LStrip(s);
    if l != [] {
      assert !IsSpace(l[0]);
      assert RStrip(l) != [] by { assert RStrip(l) == l[..|RStrip(l)|]; }
      assert s[|s| - |l|] == l[0];
    }
  }

  function LowerChar(c: char): char {
    if 'A' <= c <= 'Z' then (c as int + 32) as char else c
  }

  /** Python's `str.lower()` restricted to ASCII letters. */
  function Lower(s: string): (r: string)
    ensures |r| == |s|
    ensures forall i | 0 <= i < |s| :: r[i] == LowerChar(s[i])
  {
    seq(|s|, i requires 0 <= i < |s| => LowerChar(s[i]))
  }

  /** Python's `s[:n]` for a non-negative `n`. */
  function Prefix(s: string, n: nat): (r: string)
    ensures |r| == if n < |s| then n else |s|
    ensures r == s[..|r|]
  {
    if n < |s| then s[..n] else s
  }

  predicate OccursAt(s: string, t: string, i: nat) {
    i + |t| <= |s| && s[i..i + |t|] == t
  }

  /** Python's `t in s`. */
  predicate Contains(s: string, t: string) {
    exists i: nat | i <= |s| :: OccursAt(s, t, i)
  }

  /** The first occurrence of `t` in `s` at or after `from`, as `str.find` reports it. */
  function FindFrom(s: string, t: string, from: nat): (r: Option<nat>)
    ensures r.Some? ==> from <= r.value && OccursAt(s, t, r.value)
    ensures r.Some? ==> forall j | from <= j < r.value :: !OccursAt(s, t, j)
    ensures r.None? ==> forall j | from <= j <= |s| :: !OccursAt(s, t, j)
    decreases |s| - from
  {
    if from + |t| > |s| then None
    else if OccursAt(s, t, from) then Some(from)
    else FindFrom(s, t, from + 1)
  }

  /** The search finds an occurrence with none before it. */
  lemma FindFromFirst(s: string, t: string, from: nat, p: nat)
    requires from <= p && OccursAt(s, t, p)
    requires forall j | from <= j < p :: !OccursAt(s, t, j)
    ensures FindFrom(s, t, from) == Some(p)
  {
  }

  /** Without an occurrence from `from` on, the search finds nothing. */
  lemma {:induction false} FindFromNone(s: string, t: string, from: nat)
    requires forall j | from <= j <= |s| :: !OccursAt(s, t, j)
    ensures FindFrom(s, t, from) == None
    decreases |s| - from
  {
    if from + |t| <= |s| {
      FindFromNone(s, t, from + 1);
    }
  }

  /** A piece without `ch`, laid out at `p`, leaves `ch` out of its span of `s`. */
  lemma NoCharAt(s: string, p: nat, piece: string, ch: char)
    requires p + |piece| <= |s| && s[p..p + |piece|] == piece && ch !in piece
    ensures forall k | p <= k < p + |piece| :: s[k] != ch
  {
    forall k | p <= k < p + |piece|
      ensures s[k] != ch
    {
      assert s[k] == s[p..p + |piece|][k - p];
    }
  }

  /** A pattern cannot start where its first character is absent. */
  lemma NoOccurrenceWithout(s: string, t: string, lo: nat, hi: nat)
    requires |t| > 0 && hi <= |s|
    requires forall j | lo <= j < hi :: s[j] != t[0]
    ensures forall j | lo <= j < hi :: !OccursAt(s, t, j)
  {
    forall j | lo <= j < hi
      ensures !OccursAt(s, t, j)
    {
      if j + |t| <= |s| {
        var w := s[j..j + |t|];
        assert w[0] == s[j];
        assert w != t;
      }
    }
  }

  predicate StartsWith(s: string, p: string) {
    |p| <= |s| && s[..|p|] == p
  }

  /** Lower-casing commutes with taking a prefix. */
  lemma LowerPrefix(s: string, n: nat)
    ensures Lower(Prefix(s, n)) == Prefix(Lower(s), n)
  {
  }

  /** Lower-casing works character by character, so it distributes over concatenation. */
  lemma LowerConcat(a: string, b: string)
    ensures Lower(a + b) == Lower(a) + Lower(b)
  {
    assert forall i | 0 <= i < |a + b| :: Lower(a + b)[i] == (Lower(a) + Lower(b))[i];
  }

  /** Whatever occurs in a prefix occurs in the whole string. */
  lemma ContainsInLonger(s: string, k: nat, t: string)
    requires k <= |s|
    requires Contains(s[..k], t)
    ensures Contains(s, t)
  {
    var i: nat :| i <= k && OccursAt(s[..k], t, i);
    assert s[i..i + |t|] == s[..k][i..i + |t|];
    assert OccursAt(s, t, i);
  }

  /** Python's `sep.join(parts)`. */
  function Join(parts: seq<string>, sep: string): string {
    if |parts| == 0 then ""
    else if |parts| == 1 then parts[0]
    else parts[0] + sep + Join(parts[1..], sep)
  }

  /** Python's `s.split(c)` for a one-character separator: never empty. */
  function Split(s: string, c: char): (r: seq<string>)
    ensures |r| >= 1
    ensures forall i | 0 <= i < |r| :: c !in r[i]
  {
    if |s| == 0 then [""]
    else
      var rest := Split(s[1..], c);
      if s[0] == c then [""] + rest else [[s[0]] + rest[0]] + rest[1..]
  }

  /** Splitting and joining with the same separator gives the string back. */
  lemma {:induction false} JoinSplit(s: string, c: char)
    ensures Join(Split(s, c), [c]) == s
  {
    if |s| > 0 {
      var rest := Split(s[1..], c);
      JoinSplit(s[1..], c);
      if s[0] == c {
        assert Split(s, c) == [""] + rest;
        if |rest| == 1 {
          assert Join([""] + rest, [c]) == "" + [c] + rest[0];
        } else {
          assert ([""] + rest)[1..] == rest;
        }
      } else {
        var head := [[s[0]] + rest[0]] + rest[1..];
        assert Split(s, c) == head;
        if |rest| == 1 {
          assert Join(head, [c]) == [s[0]] + rest[0];
        } else {
          assert head[1..] == rest[1..];
          assert Join(rest, [c]) == rest[0] + [c] + Join(rest[1..], [c]);
        }
      }
    }
  }

  /** A string without the separator splits into itself alone. */
  lemma {:induction false} SplitNoSep(a: string, c: char)
    requires c !in a
    ensures Split(a, c) == [a]
  {
    if |a| > 0 {
      assert c !in a[1..] by {
        forall i | 0 <= i < |a[1..]|
          ensures a[1..][i] != c
        {
          assert a[1..][i] == a[i + 1];
        }
      }
      SplitNoSep(a[1..], c);
      assert [a[0]] + a[1..] == a;
    }
  }

  /** The first separator ends the first piece. */
  lemma {:induction false} SplitAtSep(a: string, b: string, c: char)
    requires c !in a
    ensures Split(a + [c] + b, c) == [a] + Split(b, c)
  {
    var s := a + [c] + b;
    if |a| == 0 {
      assert s[1..] == b;
    } else {
      assert s[1..] == a[1..] + [c] + b;
      assert c !in a[1..] by {
        forall i | 0 <= i < |a[1..]|
          ensures a[1..][i] != c
        {
          assert a[1..][i] == a[i + 1];
        }
      }
      SplitAtSep(a[1..], b, c);
      assert [a[0]] + a[1..] == a;
    }
  }

  /** Joining pieces free of the separator and splitting again gives the pieces back. */
  lemma {:induction false} SplitJoin(parts: seq<string>, c: char)
    requires |parts| >= 1
    requires forall i | 0 <= i < |parts| :: c !in parts[i]
    ensures Split(Join(parts, [c]), c) == parts
  {
    if |parts| == 1 {
      SplitNoSep(parts[0], c);
    } else {
      SplitJoin(parts[1..], c);
      SplitAtSep(parts[0], Join(parts[1..], [c]), c);
      assert [parts[0]] + parts[1..] == parts;
    }
  }

  /** Joining with a first and a last piece around a non-empty list. */
  lemma {:induction false} JoinAround(first: string, ps: seq<string>, last: string, sep: string)
    requires |ps| >= 1
    ensures Join([first] + ps + [last], sep) == first + sep + Join(ps, sep) + sep + last
  {
    var all := [first] + ps + [last];
    assert all[1..] == ps + [last];
    JoinSnoc(ps, last, sep);
  }

  lemma {:induction false} JoinSnoc(ps: seq<string>, last: string, sep: string)
    requires |ps| >= 1
    ensures Join(ps + [last], sep) == Join(ps, sep) + sep + last
  {
    if |ps| > 1 {
      assert (ps + [last])[1..] == ps[1..] + [last];
      JoinSnoc(ps[1..], last, sep);
    }
  }

  /** Joining a cons: the head, the separator, then the rest joined. */
  lemma JoinCons(x: string, ps: seq<string>, sep: string)
    requires |ps| >= 1
    ensures Join([x] + ps, sep) == x + sep + Join(ps, sep)
  {
    assert ([x] + ps)[1..] == ps;
  }

  /** Joining four pieces puts the separator between each neighbouring pair. */
  lemma JoinFour(a: string, b: string, c: string, d: string, sep: string)
    ensures Join([a, b, c, d], sep) == a + sep + b + sep + c + sep + d
  {
    JoinCons(c, [d], sep);
    assert [b, c, d] == [b] + [c, d];
    JoinCons(b, [c, d], sep);
    assert [a, b, c, d] == [a] + [b, c, d];
    JoinCons(a, [b, c, d], sep);
  }

  predicate IsDigit(c: char) { '0' <= c <= '9' }

  predicate AllDigits(s: string) {
    forall i | 0 <= i < |s| :: IsDigit(s[i])
  }

  function DigitChar(d: nat): char
    requires d < 10
  {
    ('0' as int + d) as char
  }

  /** Python's `int(s)` on a run of ASCII digits. */
  function DigitsValue(s: string): nat
    requires AllDigits(s)
  {
    if s == [] then 0
    else DigitsValue(s[..|s| - 1]) * 10 + (s[|s| - 1] as int - '0' as int)
  }

  /** Python's `str(n)` for a natural number. */
  function NatToString(n: nat): (r: string)
    ensures |r| >= 1 && AllDigits(r)
  {
    if n < 10 then [DigitChar(n)] else NatToString(n / 10) + [DigitChar(n % 10)]
  }

  /** Reading back the decimal numeral of `n` gives `n`. */
  lemma {:induction false} DigitsOfNatToString(n: nat)
    ensures DigitsValue(NatToString(n)) == n
  {
    var r := NatToString(n);
    if n >= 10 {
      DigitsOfNatToString(n / 10);
      assert r[..|r| - 1] == NatToString(n / 10);
    }
  }
}
