/** The string operations the bridge relies on: trimming, control characters, UTF-8 sizes, decimal. */
module Text {

  /** The Unicode White_Space property, which `str::trim` strips. */
  predicate IsSpace(c: char) {
    var n := c as int;
    9 <= n <= 13 || n == 0x20 || n == 0x85 || n == 0xA0 || n == 0x1680 || 0x2000 <= n <= 0x200A
    || n == 0x2028 || n == 0x2029 || n == 0x202F || n == 0x205F || n == 0x3000
  }

  /** The Unicode Cc category, which `char::is_control` tests. */
  predicate IsControl(c: char) {
    var n := c as int;
    n < 0x20 || 0x7F <= n < 0xA0
  }

  predicate Printable(s: string) { forall c | c in s :: !IsControl(c) }

  function TrimStart(s: string): string {
    if s != [] && IsSpace(s[0]) then TrimStart(s[1..]) else s
  }

  function TrimEnd(s: string): string {
    if s != [] && IsSpace(s[|s| - 1]) then TrimEnd(s[..|s| - 1]) else s
  }

  function Trim(s: string): string { TrimEnd(TrimStart(s)) }

  /** `str::len`: the number of bytes of the UTF-8 encoding. */
  function Utf8Len(s: string): nat {
    if s == [] then 0
    else
      var n := s[0] as int;
      (if n < 0x80 then 1 else if n < 0x800 then 2 else if n < 0x1_0000 then 3 else 4) + Utf8Len(s[1..])
  }

  function Lower(s: string): string {
    seq(|s|, i requires 0 <= i < |s| => if 'A' <= s[i] <= 'Z' then s[i] + 32 as char else s[i])
  }

  function Digit(n: nat): char
    requires n < 10
  {
    '0' + n as char
  }

  /** Decimal rendering of an ordinal, as `format!("{}")` produces it. */
  function Decimal(n: nat): (s: string)
    ensures s != []
  {
    if n < 10 then [Digit(n)] else Decimal(n / 10) + [Digit(n % 10)]
  }

  lemma {:induction false} DecimalInjective(a: nat, b: nat)
    requires Decimal(a) == Decimal(b)
    ensures a == b
  {
    var s, t := Decimal(a), Decimal(b);
    assert s[|s| - 1] == Digit(a % 10) && t[|t| - 1] == Digit(b % 10);
    if a < 10 || b < 10 {
      assert |s| == 1;
    } else {
      assert Decimal(a / 10) == s[..|s| - 1];
      assert Decimal(b / 10) == t[..|t| - 1];
      DecimalInjective(a / 10, b / 10);
    }
  }

  /** The keys that two different ordinals make under one prefix differ. */
  lemma PrefixedDecimalInjective(prefix: string, a: nat, b: nat)
    requires prefix + Decimal(a) == prefix + Decimal(b)
    ensures a == b
  {
    assert (prefix + Decimal(a))[|prefix|..] == Decimal(a);
    assert (prefix + Decimal(b))[|prefix|..] == Decimal(b);
    DecimalInjective(a, b);
  }

  lemma {:induction false} TrimStartMeans(s: string)
    ensures var t := TrimStart(s);
      && |t| <= |s| && t == s[|s| - |t|..] && (t == "" || !IsSpace(t[0]))
      && forall i | 0 <= i < |s| - |t| :: IsSpace(s[i])
  {
    if s != [] && IsSpace(s[0]) {
      TrimStartMeans(s[1..]);
      var t := TrimStart(s);
      assert s[1..][|s| - 1 - |t|..] == s[|s| - |t|..];
      assert forall i | 1 <= i < |s| - |t| :: s[i] == s[1..][i - 1];
    }
  }

  lemma {:induction false} TrimEndMeans(s: string)
    ensures var t := TrimEnd(s);
      && t <= s && (t == "" || !IsSpace(t[|t| - 1]))
      && forall i | |t| <= i < |s| :: IsSpace(s[i])
  {
    if s != [] && IsSpace(s[|s| - 1]) {
      TrimEndMeans(s[..|s| - 1]);
    }
  }

  /** Trimming takes away exactly the white space on the outside. */
  lemma TrimMeans(s: string) returns (before: nat, after: nat)
    ensures before <= after <= |s| && Trim(s) == s[before..after]
    ensures forall i | 0 <= i < before || after <= i < |s| :: IsSpace(s[i])
    ensures before < after ==> !IsSpace(s[before]) && !IsSpace(s[after - 1])
  {
    hide IsSpace, TrimStart, TrimEnd;
    TrimStartMeans(s);
    TrimEndMeans(TrimStart(s));
    before := |s| - |TrimStart(s)|;
    after := before + |Trim(s)|;
    assert forall i | 0 <= i < |TrimStart(s)| :: TrimStart(s)[i] == s[before + i];
  }
}
