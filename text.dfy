/** The string built-ins the parser relies on (`str.lower`, `str.split`,
    `str.isdigit`, `int`), restricted to ASCII. */
module Text {

  /** Whitespace as `str.split()` with no separator sees it, within ASCII:
      space, tab, line feed, vertical tab, form feed, carriage return and the
      four information separators 0x1C-0x1F. */
  predicate IsSpace(c: char)
  {
    var k := c as int;
    k == 32 || 9 <= k <= 13 || 28 <= k <= 31
  }

  predicate IsUpper(c: char)
  {
    'A' <= c <= 'Z'
  }

  predicate IsDigit(c: char)
  {
    '0' <= c <= '9'
  }

  /** ASCII lower-casing of one character. */
  function LowerChar(c: char): (d: char)
    ensures !IsUpper(d)
    ensures IsUpper(c) ==> d as int == c as int + 32
    ensures !IsUpper(c) ==> d == c
  {
    if IsUpper(c) then (c as int + 32) as char else c
  }

  /** `s.lower()`. */
  function Lower(s: string): (t: string)
    ensures |t| == |s|
    ensures forall i :: 0 <= i < |s| ==> t[i] == LowerChar(s[i])
  {
    seq(|s|, i requires 0 <= i < |s| => LowerChar(s[i]))
  }

  predicate IsLower(s: string)
  {
    forall i :: 0 <= i < |s| ==> !IsUpper(s[i])
  }

  lemma LowerIdempotent(s: string)
    ensures IsLower(Lower(s))
    ensures Lower(Lower(s)) == Lower(s)
  {
  }

  lemma LowerOfLower(s: string)
    requires IsLower(s)
    ensures Lower(s) == s
  {
  }

  /** A token: non-empty and free of whitespace. */
  predicate IsToken(t: string)
  {
    t != [] && forall i :: 0 <= i < |t| ==> !IsSpace(t[i])
  }

  /** The longest prefix of `s` that holds no whitespace. */
  function Word(s: string): (w: string)
    ensures |w| <= |s| && w == s[..|w|]
    ensures forall i :: 0 <= i < |w| ==> !IsSpace(w[i])
    ensures |w| < |s| ==> IsSpace(s[|w|])
  {
    if s == [] || IsSpace(s[0]) then [] else [s[0]] + Word(s[1..])
  }

  /** `s.split()`: the maximal runs of non-whitespace characters, in order. */
  function Split(s: string): (ts: seq<string>)
    ensures forall j :: 0 <= j < |ts| ==> IsToken(ts[j])
    decreases |s|
  {
    if s == [] then []
    else if IsSpace(s[0]) then Split(s[1..])
    else
      var w := Word(s);
      [w] + Split(s[|w|..])
  }

  /** `' '.join(ts)`. */
  function Join(ts: seq<string>): string
  {
    if |ts| == 0 then ""
    else if |ts| == 1 then ts[0]
    else ts[0] + " " + Join(ts[1..])
  }

  lemma {:induction false} SplitBlank(s: string)
    requires forall i :: 0 <= i < |s| ==> IsSpace(s[i])
    ensures Split(s) == []
    decreases |s|
  {
    if s != [] {
      SplitBlank(s[1..]);
    }
  }

  lemma {:induction false} WordOfToken(t: string, rest: string)
    requires IsToken(t)
    requires rest == [] || IsSpace(rest[0])
    ensures Word(t + rest) == t
    decreases |t|
  {
    if |t| > 1 {
      assert (t + rest)[1..] == t[1..] + rest;
      WordOfToken(t[1..], rest);
    } else {
      assert (t + rest)[1..] == rest;
    }
  }

  /** Splitting undoes joining with single spaces. */
  lemma {:induction false} SplitJoin(ts: seq<string>)
    requires forall j :: 0 <= j < |ts| ==> IsToken(ts[j])
    ensures Split(Join(ts)) == ts
    decreases |ts|
  {
    if |ts| == 1 {
      WordOfToken(ts[0], "");
      assert ts[0] + "" == ts[0];
      assert ts[0][|ts[0]|..] == [];
    } else if |ts| > 1 {
      var t, rest := ts[0], Join(ts[1..]);
      var s := t + " " + rest;
      assert s == t + (" " + rest);
      WordOfToken(t, " " + rest);
      assert s[|t|..] == " " + rest;
      assert (" " + rest)[1..] == rest;
      SplitJoin(ts[1..]);
      assert [t] + ts[1..] == ts;
    }
  }

  /** Nothing but whitespace (possibly nothing at all). */
  predicate IsBlank(s: string)
  {
    forall i :: 0 <= i < |s| ==> IsSpace(s[i])
  }

  /** Leading whitespace does not change the split. */
  lemma {:induction false} SplitSkipsBlank(ws: string, s: string)
    requires IsBlank(ws)
    ensures Split(ws + s) == Split(s)
    decreases |ws|
  {
    if ws != [] {
      assert (ws + s)[1..] == ws[1..] + s;
      SplitSkipsBlank(ws[1..], s);
    } else {
      assert ws + s == s;
    }
  }

  /** A token followed by whitespace (or by nothing at all) is split off
      whole, and splitting goes on after the whitespace. */
  lemma SplitToken(t: string, ws: string, rest: string)
    requires IsToken(t) && IsBlank(ws) && (ws != [] || rest == [])
    ensures Split(t + ws + rest) == [t] + Split(rest)
  {
    var s := t + ws + rest;
    assert s == t + (ws + rest);
    WordOfToken(t, ws + rest);
    assert s[0] == t[0];
    assert s[|t|..] == ws + rest;
    SplitSkipsBlank(ws, rest);
  }

  /** Gaps to put around and between tokens: whitespace, and non-empty
      between two tokens. */
  predicate Separators(gaps: seq<string>)
  {
    (forall i :: 0 <= i < |gaps| ==> IsBlank(gaps[i])) &&
    (forall i :: 0 < i < |gaps| - 1 ==> gaps[i] != [])
  }

  /** `gaps[0] + ts[0] + gaps[1] + ts[1] + ... + ts[n-1] + gaps[n]`. */
  function Spaced(ts: seq<string>, gaps: seq<string>): string
    requires |gaps| == |ts| + 1
    decreases |ts|
  {
    if ts == [] then gaps[0] else gaps[0] + ts[0] + Spaced(ts[1..], gaps[1..])
  }

  /** `split()` recovers the tokens whatever whitespace separates them,
      leading and trailing whitespace included. */
  lemma {:induction false} SplitSpaced(ts: seq<string>, gaps: seq<string>)
    requires forall j :: 0 <= j < |ts| ==> IsToken(ts[j])
    requires |gaps| == |ts| + 1 && Separators(gaps)
    ensures Split(Spaced(ts, gaps)) == ts
    decreases |ts|
  {
    if ts == [] {
      SplitBlank(gaps[0]);
    } else {
      var r := Spaced(ts[1..], gaps[1..]);
      assert Separators(gaps[1..]);
      SplitSpaced(ts[1..], gaps[1..]);
      var r' := if |ts| > 1 then ts[1] + Spaced(ts[2..], gaps[2..]) else "";
      assert r == gaps[1] + r';
      SplitSkipsBlank(gaps[1], r');
      SplitToken(ts[0], gaps[1], r');
      assert gaps[0] + ts[0] + r == gaps[0] + (ts[0] + gaps[1] + r');
      SplitSkipsBlank(gaps[0], ts[0] + gaps[1] + r');
      assert [ts[0]] + ts[1..] == ts;
    }
  }

  /** A digit string (`t.isdigit()` on an ASCII token). */
  predicate IsDigits(t: string)
  {
    t != [] && forall i :: 0 <= i < |t| ==> IsDigit(t[i])
  }

  /** `int(t)` for a decimal digit string; leading zeros are allowed. */
  function DigitsValue(t: string): (v: nat)
    requires forall i :: 0 <= i < |t| ==> IsDigit(t[i])
    ensures t != [] && t[0] == '0' ==> v == DigitsValue(t[1..])
    decreases |t|
  {
    if t == [] then 0
    else
      assert IsDigit(t[|t| - 1]);
      assert |t| > 1 ==> t[..|t| - 1][1..] == t[1..][..|t| - 2];
      DigitsValue(t[..|t| - 1]) * 10 + (t[|t| - 1] as int - '0' as int)
  }

  /** `str(n)`: the decimal digits of `n`, without leading zeros. */
  function Decimal(n: nat): string
  {
    var d := ('0' as int + n % 10) as char;
    if n < 10 then [d] else Decimal(n / 10) + [d]
  }

  /** `int` undoes `str`, and `str(n)` passes `isdigit()`. */
  lemma {:induction false} DecimalRoundTrip(n: nat)
    ensures IsDigits(Decimal(n)) && DigitsValue(Decimal(n)) == n
  {
    var d := ('0' as int + n % 10) as char;
    if n >= 10 {
      var s := Decimal(n / 10);
      DecimalRoundTrip(n / 10);
      var t := s + [d];
      assert t[..|t| - 1] == s && t[|t| - 1] == d;
    }
  }

  lemma {:induction false} JoinLower(ts: seq<string>)
    requires forall j :: 0 <= j < |ts| ==> IsLower(ts[j])
    ensures IsLower(Join(ts))
    decreases |ts|
  {
    if |ts| > 1 {
      JoinLower(ts[1..]);
    }
  }
}
