/**
 Paths on `---` and `+++` lines: git's C-style quoting and its undoing.
 */
module Quoting {
  import opened Text
  import opened Header

  predicate IsOctal(c: char) { '0' <= c <= '7' }

  /** How many of the first three characters of `s`, from the left, are octal digits. */
  function OctalLen(s: string): (n: nat)
    ensures n <= 3 && n <= |s|
  {
    if |s| < 1 || !IsOctal(s[0]) then 0
    else if |s| < 2 || !IsOctal(s[1]) then 1
    else if |s| < 3 || !IsOctal(s[2]) then 2
    else 3
  }

  function OctalValue(s: string): nat {
    if s == "" then 0
    else 8 * OctalValue(s[..|s| - 1]) + (if IsOctal(s[|s| - 1]) then (s[|s| - 1] - '0') as nat else 0)
  }

  /** The byte an escape other than an octal one names. */
  function Escaped(e: char): char {
    match e
    case 'a' => 7 as char
    case 'b' => 8 as char
    case 't' => 9 as char
    case 'n' => 10 as char
    case 'v' => 11 as char
    case 'f' => 12 as char
    case 'r' => 13 as char
    case _ => e
  }

  function UnescapedOf(s: string): string {
    if s == "" then ""
    else if s[0] != '\\' then [s[0]] + UnescapedOf(s[1..])
    else if |s| == 1 then ""
    else
      var k := OctalLen(s[1..]);
      if k > 0 then [(OctalValue(s[1..1 + k]) % 256) as char] + UnescapedOf(s[1 + k..])
      else [Escaped(s[1])] + UnescapedOf(s[2..])
  }

  function UnquotedOf(s: string): string {
    if !("\"" <= s) then s else UnescapedOf(AwkSubstr(s, 2, |s| - 2))
  }

  function TrimPrefix(s: string, prefix: string): string {
    if prefix <= s then s[|prefix|..] else s
  }

  function BeforeTab(s: string): string {
    var i := IndexOf(s, '\t');
    if i >= 0 then s[..i] else s
  }

  function HeaderPath(rest: string, prefix: string): string {
    var p := UnquotedOf(BeforeTab(rest));
    if p == "/dev/null" then "" else TrimPrefix(p, prefix)
  }

  lemma {:induction false} OctalValueSnoc(s: string, c: char)
    requires IsOctal(c)
    ensures OctalValue(s + [c]) == 8 * OctalValue(s) + (c - '0') as nat
  {
    assert (s + [c])[..|s|] == s;
  }

  method OctalByte(s: string, start: nat) returns (n: nat, i: nat)
    requires start <= |s|
    ensures i == start + OctalLen(s[start..])
    ensures n == OctalValue(s[start..i])
  {
    n, i := 0, start;
    var j := 0;
    while j < 3 && i < |s| && IsOctal(s[i])
      invariant j <= 3 && i == start + j <= |s|
      invariant forall m :: start <= m < i ==> IsOctal(s[m])
      invariant n == OctalValue(s[start..i])
    {
      SliceSnoc(s, start, i);
      OctalValueSnoc(s[start..i], s[i]);
      n := n * 8 + (s[i] - '0') as nat;
      i := i + 1;
      j := j + 1;
    }
  }

  lemma {:induction false} UnescapeStep(t: string, i: nat)
    requires i < |t|
    ensures t[i] != '\\' ==> UnescapedOf(t[i..]) == [t[i]] + UnescapedOf(t[i + 1..])
    ensures t[i] == '\\' && i + 1 == |t| ==> UnescapedOf(t[i..]) == UnescapedOf(t[i + 1..])
  {
    var rest := t[i..];
    assert rest[1..] == t[i + 1..];
  }

  lemma {:induction false} UnescapeOctalStep(t: string, i: nat, next: nat)
    requires i + 1 < |t| && t[i] == '\\' && IsOctal(t[i + 1])
    requires next == i + 1 + OctalLen(t[i + 1..])
    ensures UnescapedOf(t[i..]) == [(OctalValue(t[i + 1..next]) % 256) as char] + UnescapedOf(t[next..])
  {
    var rest := t[i..];
    assert rest[1..] == t[i + 1..];
    assert rest[1..next - i] == t[i + 1..next];
    assert rest[next - i..] == t[next..];
  }

  lemma {:induction false} UnescapeOtherStep(t: string, i: nat)
    requires i + 1 < |t| && t[i] == '\\' && !IsOctal(t[i + 1])
    ensures UnescapedOf(t[i..]) == [Escaped(t[i + 1])] + UnescapedOf(t[i + 2..])
  {
    var rest := t[i..];
    assert rest[1..] == t[i + 1..];
    assert rest[2..] == t[i + 2..];
  }

  /** One turn of the decoding loop: what it appends, and where it leaves off. */
  method UnescapeOne(t: string, i: nat) returns (x: string, next: nat)
    requires i < |t|
    ensures i < next <= |t|
    ensures UnescapedOf(t[i..]) == x + UnescapedOf(t[next..])
  {
    if t[i] != '\\' {
      UnescapeStep(t, i);
      x, next := [t[i]], i + 1;
    } else if i + 1 >= |t| {
      // A trailing backslash names nothing and appends nothing.
      UnescapeStep(t, i);
      x, next := "", i + 1;
    } else if IsOctal(t[i + 1]) {
      var n;
      n, next := OctalByte(t, i + 1);
      UnescapeOctalStep(t, i, next);
      x := [(n % 256) as char];
    } else {
      UnescapeOtherStep(t, i);
      x, next := [Escaped(t[i + 1])], i + 2;
    }
  }

  method Unquote(s: string) returns (r: string)
    ensures r == UnquotedOf(s)
  {
    if !("\"" <= s) {
      return s;
    }
    var t := AwkSubstr(s, 2, |s| - 2);
    var out := "";
    var i := 0;
    while i < |t|
      invariant 0 <= i <= |t|
      invariant out + UnescapedOf(t[i..]) == UnescapedOf(t)
    {
      var x, next := UnescapeOne(t, i);
      out := out + x;
      i := next;
    }
    return out;
  }

  /* ---- what git writes ---- */

  /** Text of bytes only. */
  ghost predicate Bytes(s: string) { forall k :: 0 <= k < |s| ==> (s[k] as int) < 256 }

  function OctalDigit(n: nat): char
    requires n < 8
  {
    '0' + n as char
  }

  function OctalDigits(n: nat): string
    requires n < 256
  {
    [OctalDigit(n / 64), OctalDigit(n / 8 % 8), OctalDigit(n % 8)]
  }

  /** Git's C-style form of one byte. `high` is core.quotePath: whether the
      bytes above ASCII are escaped as well. */
  function QuotedByte(c: char, high: bool): string {
    var n := c as int;
    if n == 7 then "\\a" else if n == 8 then "\\b" else if n == 9 then "\\t"
    else if n == 10 then "\\n" else if n == 11 then "\\v" else if n == 12 then "\\f"
    else if n == 13 then "\\r" else if c == '"' then "\\\"" else if c == '\\' then "\\\\"
    else if n < 256 && (n < 0x20 || n == 0x7F || (high && n >= 0x80)) then
      ['\\'] + OctalDigits(n)
    else [c]
  }

  function Quoted(s: string, high: bool): string {
    if s == "" then "" else QuotedByte(s[0], high) + Quoted(s[1..], high)
  }

  /** What follows `--- ` or `+++ ` for a path: bare when no byte of it needs
      quoting, and quoted as a whole otherwise; either may carry a tab. */
  function SideText(prefix: string, path: string, high: bool, tab: bool): string {
    var name := prefix + path;
    var quoted := Quoted(name, high);
    (if quoted == name then name else "\"" + quoted + "\"") + (if tab then "\t" else "")
  }

  lemma {:induction false} OctalRoundTrip(n: nat, rest: string)
    requires n < 256
    ensures UnescapedOf(['\\'] + OctalDigits(n) + rest) == [n as char] + UnescapedOf(rest)
  {
    hide OctalValue, OctalDigits;
    var d := OctalDigits(n);
    var s := ['\\'] + d + rest;
    OctalDigitsValue(n);
    assert s[1..4] == d && s[4..] == rest && s[1..] == d + rest;
  }

  lemma {:induction false} ThreeOctals(x: char, y: char, z: char, rest: string)
    requires IsOctal(x) && IsOctal(y) && IsOctal(z)
    ensures OctalLen([x, y, z] + rest) == 3
  {
    var s := [x, y, z] + rest;
    assert s[0] == x && s[1] == y && s[2] == z;
  }

  lemma {:induction false} ThreeOctalsValue(x: char, y: char, z: char)
    requires IsOctal(x) && IsOctal(y) && IsOctal(z)
    ensures OctalValue([x, y, z]) == 64 * (x - '0') as nat + 8 * (y - '0') as nat + (z - '0') as nat
  {
    OctalValueSnoc("", x);
    OctalValueSnoc([x], y);
    OctalValueSnoc([x, y], z);
    assert OctalValue("") == 0;
    hide OctalValue;
    assert "" + [x] == [x] && [x] + [y] == [x, y] && [x, y] + [z] == [x, y, z];
  }

  lemma {:induction false} OctalDigitIs(n: nat)
    requires n < 8
    ensures IsOctal(OctalDigit(n)) && (OctalDigit(n) - '0') as nat == n
  {
  }

  lemma {:induction false} OctalDigitsValue(n: nat)
    requires n < 256
    ensures |OctalDigits(n)| == 3 && OctalValue(OctalDigits(n)) == n
    ensures forall rest :: OctalLen(OctalDigits(n) + rest) == 3
  {
    var x, y, z := OctalDigit(n / 64), OctalDigit(n / 8 % 8), OctalDigit(n % 8);
    OctalDigitIs(n / 64);
    OctalDigitIs(n / 8 % 8);
    OctalDigitIs(n % 8);
    assert OctalDigits(n) == [x, y, z];
    hide OctalValue, OctalLen, OctalDigit, OctalDigits, IsOctal;
    ThreeOctalsValue(x, y, z);
    forall rest ensures OctalLen(OctalDigits(n) + rest) == 3 {
      ThreeOctals(x, y, z, rest);
    }
  }

  lemma {:induction false} ByteRoundTrip(c: char, high: bool, rest: string)
    requires (c as int) < 256
    ensures UnescapedOf(QuotedByte(c, high) + rest) == [c] + UnescapedOf(rest)
  {
    hide UnescapedOf;
    var q := QuotedByte(c, high);
    if |q| == 1 {
      PlainRoundTrip(c, rest);
    } else if |q| == 2 {
      EscapeRoundTrip(q[1], rest);
    } else {
      OctalRoundTrip(c as int, rest);
    }
  }

  lemma {:induction false} PlainRoundTrip(c: char, rest: string)
    requires c != '\\'
    ensures UnescapedOf([c] + rest) == [c] + UnescapedOf(rest)
  {
    assert ([c] + rest)[1..] == rest;
  }

  lemma {:induction false} EscapeRoundTrip(e: char, rest: string)
    requires !IsOctal(e)
    ensures UnescapedOf(['\\', e] + rest) == [Escaped(e)] + UnescapedOf(rest)
  {
    var s := ['\\', e] + rest;
    assert s[2..] == rest;
    assert s[1..][0] == e;
  }

  lemma {:induction false} UnescapeInvertsQuote(s: string, high: bool)
    requires Bytes(s)
    ensures UnescapedOf(Quoted(s, high)) == s
  {
    if s != "" {
      UnescapeInvertsQuote(s[1..], high);
      ByteRoundTrip(s[0], high, Quoted(s[1..], high));
    }
  }

  lemma {:induction false} QuotedHasNoTab(s: string, high: bool)
    ensures '\t' !in Quoted(s, high)
  {
    if s != "" {
      QuotedHasNoTab(s[1..], high);
    }
  }

  lemma {:induction false} BeforeTabIs(s: string, tab: bool)
    requires '\t' !in s
    ensures BeforeTab(s + (if tab then "\t" else "")) == s
  {
    var t := s + (if tab then "\t" else "");
    assert forall j :: 0 <= j < |s| ==> t[j] == s[j];
    if tab {
      assert t[|s|] == '\t';
      assert IndexOf(t, '\t') == |s|;
    }
  }

  lemma {:induction false} SideTextReads(name: string, high: bool, tab: bool)
    requires Bytes(name) && name != "" && name[0] != '"'
    ensures UnquotedOf(BeforeTab(SideText("", name, high, tab))) == name
  {
    hide Quoted, UnescapedOf, BeforeTab;
    var quoted := Quoted(name, high);
    assert "" + name == name;
    QuotedHasNoTab(name, high);
    if quoted == name {
      BeforeTabIs(name, tab);
    } else {
      UnescapeInvertsQuote(name, high);
      var q := "\"" + quoted + "\"";
      BeforeTabIs(q, tab);
      assert AwkSubstr(q, 2, |q| - 2) == quoted;
    }
  }

  /** Reading a path off a side line undoes git's writing of it: for every path
      of bytes, quoted or bare, with or without the closing tab. */
  lemma {:induction false} HeaderPathInvertsGit(prefix: string, path: string, high: bool, tab: bool)
    requires prefix == "a/" || prefix == "b/"
    requires Bytes(path)
    ensures HeaderPath(SideText(prefix, path, high, tab), prefix) == path
  {
    var name := prefix + path;
    assert SideText(prefix, path, high, tab) == SideText("", name, high, tab) by {
      assert "" + name == name;
    }
    SideTextReads(name, high, tab);
    assert name[0] != '/' && "/dev/null"[0] == '/';
    assert name[2..] == path;
  }
}
