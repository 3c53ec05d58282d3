/** Python's conversions between `int` and decimal text: `int(s)` on a `str`, which
    the pagination mixin applies to a request parameter, and `str(n)`, which labels
    the pagination choices. */
module IntText {
  import opened Base

  /** The ASCII characters `int()` strips around its digits: tab, line feed,
      vertical tab, form feed, carriage return and space.  The separators 28-31,
      for which `str.isspace` also holds, are not among them. */
  predicate IsSpace(c: char) {
    var n := c as int;
    n == 32 || 9 <= n <= 13
  }

  predicate IsDigit(c: char) {
    '0' <= c <= '9'
  }

  function DigitValue(c: char): nat {
    if IsDigit(c) then c as int - '0' as int else 0
  }

  function DigitChar(d: nat): char
    requires d < 10
  {
    ('0' as int + d) as char
  }

  function StripLeading(s: string): string {
    if s != [] && IsSpace(s[0]) then StripLeading(s[1..]) else s
  }

  function StripTrailing(s: string): string {
    if s != [] && IsSpace(s[|s| - 1]) then StripTrailing(s[..|s| - 1]) else s
  }

  /** The body of a base-10 integer literal as `int` accepts it: digits, with single
      underscores allowed between two digits. */
  predicate IsDigitRun(s: string) {
    && |s| > 0
    && IsDigit(s[0]) && IsDigit(s[|s| - 1])
    && (forall i :: 0 <= i < |s| ==> IsDigit(s[i]) || s[i] == '_')
    && (forall i :: 0 <= i < |s| - 1 ==> !(s[i] == '_' && s[i + 1] == '_'))
  }

  /** The number a digit run denotes; underscores do not contribute. */
  function RunValue(s: string): nat {
    if s == [] then 0
    else if s[|s| - 1] == '_' then RunValue(s[..|s| - 1])
    else RunValue(s[..|s| - 1]) * 10 + DigitValue(s[|s| - 1])
  }

  /** `int(s)` for a `str` argument: `None` where Python raises `ValueError`. */
  function ParseInt(s: string): Option<int> {
    var t := StripTrailing(StripLeading(s));
    if t == [] then None
    else if t[0] == '+' || t[0] == '-' then
      if IsDigitRun(t[1..]) then
        var magnitude: int := RunValue(t[1..]);
        Some(if t[0] == '-' then -magnitude else magnitude)
      else None
    else if IsDigitRun(t) then Some(RunValue(t))
    else None
  }

  function NatText(n: nat): (s: string)
    ensures |s| > 0
  {
    if n < 10 then [DigitChar(n)] else NatText(n / 10) + [DigitChar(n % 10)]
  }

  /** `str(n)` for an `int`. */
  function IntToText(n: int): string {
    if n < 0 then "-" + NatText(-n) else NatText(n)
  }

  lemma {:induction false} NatTextDigits(n: nat)
    ensures forall i :: 0 <= i < |NatText(n)| ==> IsDigit(NatText(n)[i])
    ensures RunValue(NatText(n)) == n
  {
    if n >= 10 {
      NatTextDigits(n / 10);
      var s := NatText(n);
      assert s[..|s| - 1] == NatText(n / 10);
    }
  }

  lemma NatTextRun(n: nat)
    ensures IsDigitRun(NatText(n)) && RunValue(NatText(n)) == n
  {
    NatTextDigits(n);
  }

  lemma StripsNothing(s: string)
    requires |s| > 0 && !IsSpace(s[0]) && !IsSpace(s[|s| - 1])
    ensures StripTrailing(StripLeading(s)) == s
  {
  }

  /** `int(str(n)) == n`: a page size rendered as a choice label parses back to itself. */
  lemma ParseIntText(n: int)
    ensures ParseInt(IntToText(n)) == Some(n)
  {
    var m: nat := if n < 0 then -n else n;
    var d := NatText(m);
    NatTextRun(m);
    var s := IntToText(n);
    if n < 0 {
      assert s == "-" + d && s[1..] == d;
      StripsNothing(s);
    } else {
      assert s == d && IsDigit(d[0]) && IsDigit(d[|d| - 1]);
      StripsNothing(s);
    }
  }

  /** Python's `int` also accepts surrounding whitespace, a sign and digit-group
      underscores. */
  lemma ParseIntAccepts()
    ensures ParseInt(" +1_000\n") == Some(1000)
    ensures ParseInt("-7") == Some(-7)
  {
    assert StripTrailing(StripLeading(" +1_000\n")) == "+1_000" by {
      assert StripLeading(" +1_000\n") == "+1_000\n";
      assert "+1_000\n"[..6] == "+1_000";
    }
    assert "+1_000"[1..] == "1_000";
    assert RunValue("1_000") == 1000 by {
      assert "1_000"[..4] == "1_00";
      assert "1_00"[..3] == "1_0";
      assert "1_0"[..2] == "1_";
      assert "1_"[..1] == "1";
      assert "1"[..0] == "";
    }
    assert "-7"[1..] == "7";
  }

  /** `int` rejects empty text, a decimal point and misplaced underscores. */
  lemma ParseIntRejects()
    ensures ParseInt("") == None
    ensures ParseInt("2.5") == None
    ensures ParseInt("1__0") == None
    ensures ParseInt("_1") == None
    ensures ParseInt("\U{1c}100") == None
  {
    StripsNothing("2.5");
    assert !IsDigitRun("2.5") by { assert "2.5"[1] == '.'; }
    StripsNothing("1__0");
    assert !IsDigitRun("1__0") by { assert "1__0"[1] == '_' && "1__0"[2] == '_'; }
    StripsNothing("_1");
  }
}
