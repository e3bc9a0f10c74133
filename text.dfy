/**
 * The few pieces of java.lang.String and java.lang.Integer the resolver relies on:
 * `split` with a one-character separator and limit 0, `trim`, `replace(char, char)`,
 * `Integer.parseInt`, the decimal form of an `int`, and the resolver's own `q`.
 */
module Text {
  import opened Lang

  // ---------------------------------------------------------------------------
  // split

  /** Every piece of `s` between occurrences of `sep`, empty pieces included. */
  function SplitAll(s: string, sep: char): (r: seq<string>)
    ensures |r| >= 1
    ensures forall i :: 0 <= i < |r| ==> sep !in r[i]
  {
    if s == [] then [""]
    else
      var rest := SplitAll(s[1..], sep);
      if s[0] == sep then [""] + rest
      else [[s[0]] + rest[0]] + rest[1..]
  }

  /** The pieces glued back together with `sep` between neighbours. */
  function JoinWith(ps: seq<string>, sep: char): string
  {
    if ps == [] then ""
    else if |ps| == 1 then ps[0]
    else ps[0] + [sep] + JoinWith(ps[1..], sep)
  }

  /** Drops the empty strings at the end of the list, as a zero split limit does. */
  function DropTrailingEmpty(ps: seq<string>): (r: seq<string>)
    ensures |r| <= |ps| && r == ps[..|r|]
    ensures r == [] || r[|r| - 1] != ""
    ensures forall i :: |r| <= i < |ps| ==> ps[i] == ""
  {
    if ps != [] && ps[|ps| - 1] == "" then DropTrailingEmpty(ps[..|ps| - 1]) else ps
  }

  /**
   * `s.split(sep)` in Java: a string without the separator is returned whole
   * (so "" gives [""]); otherwise the pieces, less the trailing empty ones.
   */
  function Split(s: string, sep: char): (r: seq<string>)
    ensures sep !in s ==> r == [s]
    ensures forall i :: 0 <= i < |r| ==> sep !in r[i]
  {
    if sep !in s then [s] else DropTrailingEmpty(SplitAll(s, sep))
  }

  lemma {:induction false} SplitAllNoSeparator(p: string, sep: char)
    requires sep !in p
    ensures SplitAll(p, sep) == [p]
  {
    if p != [] {
      SplitAllNoSeparator(p[1..], sep);
      assert [p[0]] + p[1..] == p;
    }
  }

  lemma {:induction false} SplitAllCons(p: string, sep: char, t: string)
    requires sep !in p
    ensures SplitAll(p + [sep] + t, sep) == [p] + SplitAll(t, sep)
  {
    if p == [] {
      assert p + [sep] + t == [sep] + t;
      assert ([sep] + t)[1..] == t;
    } else {
      var s := p + [sep] + t;
      assert s[0] == p[0] && s[1..] == p[1..] + [sep] + t;
      SplitAllCons(p[1..], sep, t);
      assert [p[0]] + p[1..] == p;
    }
  }

  /** Splitting a joined list of separator-free pieces gives the pieces back. */
  lemma {:induction false} SplitAllJoin(ps: seq<string>, sep: char)
    requires |ps| >= 1
    requires forall i :: 0 <= i < |ps| ==> sep !in ps[i]
    ensures SplitAll(JoinWith(ps, sep), sep) == ps
  {
    if |ps| == 1 {
      SplitAllNoSeparator(ps[0], sep);
    } else {
      SplitAllJoin(ps[1..], sep);
      SplitAllCons(ps[0], sep, JoinWith(ps[1..], sep));
      assert [ps[0]] + ps[1..] == ps;
    }
  }

  lemma {:induction false} JoinWithNoSeparator(ps: seq<string>, sep: char)
    requires |ps| == 1
    ensures JoinWith(ps, sep) == ps[0]
  {
  }

  lemma {:induction false} JoinWithHasSeparator(ps: seq<string>, sep: char)
    requires |ps| >= 2
    ensures sep in JoinWith(ps, sep)
  {
    assert JoinWith(ps, sep)[|ps[0]|] == sep;
  }

  /**
   * The round trip the version parser depends on: separator-free pieces whose
   * last one is not empty come back from `split` unchanged.
   */
  lemma SplitJoin(ps: seq<string>, sep: char)
    requires |ps| >= 1 && ps[|ps| - 1] != ""
    requires forall i :: 0 <= i < |ps| ==> sep !in ps[i]
    ensures Split(JoinWith(ps, sep), sep) == ps
  {
    if |ps| == 1 {
      JoinWithNoSeparator(ps, sep);
    } else {
      JoinWithHasSeparator(ps, sep);
      SplitAllJoin(ps, sep);
    }
  }

  // ---------------------------------------------------------------------------
  // trim

  /** `String.trim` strips every character up to and including U+0020. */
  predicate IsTrimmed(c: char) { c <= ' ' }

  function TrimStart(s: string): (r: string)
    ensures |r| <= |s| && r == s[|s| - |r|..]
    ensures r == [] || !IsTrimmed(r[0])
  {
    if s != [] && IsTrimmed(s[0]) then TrimStart(s[1..]) else s
  }

  function TrimEnd(s: string): (r: string)
    ensures |r| <= |s| && r == s[..|r|]
    ensures r == [] || !IsTrimmed(r[|r| - 1])
  {
    if s != [] && IsTrimmed(s[|s| - 1]) then TrimEnd(s[..|s| - 1]) else s
  }

  /** `TrimStart` drops only trimmed characters. */
  lemma {:induction false} TrimStartDrops(s: string)
    ensures forall k :: 0 <= k < |s| - |TrimStart(s)| ==> IsTrimmed(s[k])
  {
    if s != [] && IsTrimmed(s[0]) {
      TrimStartDrops(s[1..]);
      assert forall k :: 1 <= k < |s| ==> s[k] == s[1..][k - 1];
    }
  }

  /** `TrimEnd` drops only trimmed characters. */
  lemma {:induction false} TrimEndDrops(s: string)
    ensures forall k :: |TrimEnd(s)| <= k < |s| ==> IsTrimmed(s[k])
  {
    if s != [] && IsTrimmed(s[|s| - 1]) {
      TrimEndDrops(s[..|s| - 1]);
    }
  }

  /** `String.trim`. */
  function Trim(s: string): (r: string)
    ensures r == [] || (!IsTrimmed(r[0]) && !IsTrimmed(r[|r| - 1]))
  {
    TrimEnd(TrimStart(s))
  }

  /**
   * The trim of `s` is the slice of `s` left once every leading and trailing
   * character at or below a space is removed.
   */
  lemma TrimSlice(s: string)
    ensures exists i, j ::
      && 0 <= i <= j <= |s| && Trim(s) == s[i..j]
      && (forall k :: 0 <= k < i ==> IsTrimmed(s[k]))
      && (forall k :: j <= k < |s| ==> IsTrimmed(s[k]))
  {
    var t := TrimStart(s);
    var i := |s| - |t|;
    var r := TrimEnd(t);
    TrimStartDrops(s);
    TrimEndDrops(t);
    assert r == s[i..i + |r|];
    assert forall k :: i + |r| <= k < |s| ==> s[k] == t[k - i];
  }

  /** A string that neither starts nor ends with a trimmed character is its own trim. */
  lemma TrimKeepsClean(s: string)
    requires s == [] || (!IsTrimmed(s[0]) && !IsTrimmed(s[|s| - 1]))
    ensures Trim(s) == s
  {
  }

  // ---------------------------------------------------------------------------
  // Integer.parseInt and the decimal form of an int

  predicate IsDigit(c: char) { '0' <= c <= '9' }

  predicate AllDigits(s: string) { forall i :: 0 <= i < |s| ==> IsDigit(s[i]) }

  function DigitChar(d: nat): (c: char)
    requires d < 10
    ensures IsDigit(c)
  {
    ('0' as int + d) as char
  }

  /** The value of a string of decimal digits, most significant first. */
  function DigitsValue(ds: string): nat
    requires AllDigits(ds)
  {
    if ds == [] then 0
    else DigitsValue(ds[..|ds| - 1]) * 10 + (ds[|ds| - 1] as int - '0' as int)
  }

  function Signed(negative: bool, m: nat): int { if negative then -(m as int) else m }

  /** The digits after an optional leading sign. */
  function Magnitude(s: string): string
  {
    if s != [] && (s[0] == '-' || s[0] == '+') then s[1..] else s
  }

  /**
   * `Integer.parseInt(s)`: an optional sign, at least one decimal digit, and a
   * value that fits in 32 bits; anything else is a NumberFormatException (None).
   */
  function ParseInt(s: string): (r: Option<int32>)
    ensures r.Some? ==> Magnitude(s) != [] && AllDigits(Magnitude(s))
    ensures r.Some? ==> r.value as int == Signed(s[0] == '-', DigitsValue(Magnitude(s)))
    ensures (&& Magnitude(s) != [] && AllDigits(Magnitude(s))
             && -0x8000_0000 <= Signed(s[0] == '-', DigitsValue(Magnitude(s))) < 0x8000_0000) ==> r.Some?
  {
    var digits := Magnitude(s);
    if digits == [] || !AllDigits(digits) then None
    else
      var v := Signed(s[0] == '-', DigitsValue(digits));
      if -0x8000_0000 <= v < 0x8000_0000 then Some(v as int32) else None
  }

  function NatToString(n: nat): (r: string)
    ensures r != [] && AllDigits(r)
  {
    if n < 10 then [DigitChar(n)] else NatToString(n / 10) + [DigitChar(n % 10)]
  }

  /** The decimal form Java gives an `int` in string concatenation. */
  function IntToString(n: int): (r: string)
    ensures r != []
    ensures forall i :: 0 <= i < |r| ==> r[i] != '.' && r[i] != ','
  {
    if n < 0 then "-" + NatToString(-n) else NatToString(n)
  }

  lemma {:induction false} NatToStringValue(n: nat)
    ensures DigitsValue(NatToString(n)) == n
  {
    if n >= 10 {
      var s := NatToString(n);
      NatToStringValue(n / 10);
      assert s[..|s| - 1] == NatToString(n / 10);
    }
  }

  /** Leading zeros, a leading `+` and a negative zero are all accepted; a lone sign is not. */
  lemma ParseIntExamples()
    ensures ParseInt("007") == Some(7)
    ensures ParseInt("+5") == Some(5)
    ensures ParseInt("-0") == Some(0)
    ensures ParseInt("+") == None && ParseInt("-") == None && ParseInt("") == None
    ensures ParseInt("1x") == None
  {
    assert Magnitude("+5") == "5" && Magnitude("-0") == "0";
    assert DigitsValue("00") == 0 && "007"[..2] == "00";
    assert !IsDigit("1x"[1]);
  }

  /** `Integer.parseInt` reads back the decimal form of every int. */
  lemma ParseIntToString(n: int32)
    ensures ParseInt(IntToString(n as int)) == Some(n)
  {
    if n < 0 {
      NatToStringValue(-(n as int));
      assert Magnitude(IntToString(n as int)) == NatToString(-(n as int));
    } else {
      NatToStringValue(n as int);
    }
  }

  // ---------------------------------------------------------------------------
  // replace(char, char) and q

  /** `s.replace(from, to)`: every occurrence of `from` becomes `to`. */
  function ReplaceChar(s: string, from: char, to: char): (r: string)
    ensures |r| == |s|
    ensures forall i :: 0 <= i < |s| ==> r[i] == if s[i] == from then to else s[i]
  {
    seq(|s|, i requires 0 <= i < |s| => if s[i] == from then to else s[i])
  }

  /** The resolver's `q`: `s.substring(1, s.length() - 1)`, which throws below two characters. */
  function Q(s: string): (r: Result<string, Exception>)
  {
    if |s| < 2 then Err(StringIndexOutOfBounds) else Ok(s[1..|s| - 1])
  }

  /** `q` strips exactly the first and the last character, and nothing else. */
  lemma QStrips(open: char, x: string, close: char)
    ensures Q([open] + x + [close]) == Ok(x)
  {
    var s := [open] + x + [close];
    assert s[1..|s| - 1] == x;
  }

  lemma QInverse(s: string, x: string)
    requires Q(s) == Ok(x)
    ensures |s| >= 2 && s == [s[0]] + x + [s[|s| - 1]]
  {
  }
}
