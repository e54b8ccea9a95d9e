/** Number parsing and trimming, as Rust's standard library does them. */
module RustText {
  import opened Outcome
  import opened Utf8

  const PLUS: byte := 0x2B
  const MINUS: byte := 0x2D

  type u32 = n: int | 0 <= n < 0x1_0000_0000

  type i32 = n: int | -0x8000_0000 <= n < 0x8000_0000

  predicate IsDigit(b: int) {
    0x30 <= b <= 0x39
  }

  predicate AllDigits(s: seq<int>) {
    forall i :: 0 <= i < |s| ==> IsDigit(s[i])
  }

  function Decimal(s: seq<int>): nat
    requires AllDigits(s)
  {
    if s == [] then 0 else Decimal(s[..|s| - 1]) * 10 + (s[|s| - 1] - 0x30)
  }

  /** The number a text denotes: digits behind an optional sign, a minus only where `signed`. */
  function Number(s: seq<int>, signed: bool): Option<int> {
    if s != [] && AllDigits(s) then Some(Decimal(s))
    else if |s| > 1 && s[0] == PLUS && AllDigits(s[1..]) then Some(Decimal(s[1..]))
    else if |s| > 1 && s[0] == MINUS && signed && AllDigits(s[1..]) then
      var magnitude: int := Decimal(s[1..]);
      Some(-magnitude)
    else None
  }

  function DecimalText(n: nat): (s: Text)
    ensures s != [] && AllDigits(s)
  {
    if n < 10 then [0x30 + n] else DecimalText(n / 10) + [0x30 + n % 10]
  }

  lemma {:induction false} DecimalRead(n: nat)
    ensures Decimal(DecimalText(n)) == n
  {
    var s := DecimalText(n);
    if n < 10 {
      assert s[..0] == [];
    } else {
      DecimalRead(n / 10);
      assert s[..|s| - 1] == DecimalText(n / 10);
    }
  }

  function SignedText(n: int): (s: Text)
    ensures s != [] && (forall i :: 0 <= i < |s| ==> IsDigit(s[i]) || s[i] == MINUS)
  {
    if n < 0 then [MINUS] + DecimalText(-n) else DecimalText(n)
  }

  lemma NumberRead(n: int)
    ensures Number(SignedText(n), true) == Some(n)
    ensures n >= 0 ==> Number(SignedText(n), false) == Some(n)
  {
    DecimalRead(if n < 0 then -n else n);
    if n < 0 {
      var s := SignedText(n);
      assert s[1..] == DecimalText(-n) && !IsDigit(s[0]);
    }
  }

  /** The decimal numeral of `n`, with any zeros in front. */
  ghost predicate Numeral(s: seq<int>, n: nat) {
    exists k: nat :: s == Zeros(k) + DecimalText(n)
  }

  function Zeros(k: nat): (s: Text)
    ensures |s| == k && forall i :: 0 <= i < k ==> s[i] == 0x30
  {
    seq(k, i => 0x30)
  }

  /** A numeral, a plus and a numeral, or a minus and the numeral of the negated number. */
  ghost predicate Denotes(s: seq<int>, signed: bool, n: int) {
    || (n >= 0 && Numeral(s, n))
    || (n >= 0 && s != [] && s[0] == 43 && Numeral(s[1..], n))
    || (n <= 0 && signed && s != [] && s[0] == 45 && Numeral(s[1..], -n))
  }

  /** A text is read as a number if and only if it denotes it. */
  lemma NumberExactly(s: seq<int>, signed: bool, n: int)
    ensures Number(s, signed) == Some(n) <==> Denotes(s, signed, n)
  {
    if n >= 0 { NumeralExactly(s, n); }
    if s != [] { NumeralExactly(s[1..], if n >= 0 then n else -n); }
    if n == 0 && s != [] { assert -n == n; }
  }

  lemma NumeralExactly(s: seq<int>, n: nat)
    ensures s != [] && AllDigits(s) && Decimal(s) == n <==> Numeral(s, n)
  {
    if k: nat :| s == Zeros(k) + DecimalText(n) {
      ZerosRead(k, DecimalText(n));
      DecimalRead(n);
    }
    if s != [] && AllDigits(s) && Decimal(s) == n { NumeralOf(s); }
  }

  lemma {:induction false} ZerosRead(k: nat, s: Text)
    requires AllDigits(s)
    ensures AllDigits(Zeros(k) + s) && Decimal(Zeros(k) + s) == Decimal(s)
    decreases |s|, k
  {
    if s != [] {
      ZerosRead(k, s[..|s| - 1]);
      assert (Zeros(k) + s)[..k + |s| - 1] == Zeros(k) + s[..|s| - 1];
    } else if k > 0 {
      ZerosRead(k - 1, s);
      assert (Zeros(k) + s)[..k - 1] == Zeros(k - 1) + s;
    }
  }

  lemma DigitAppended(m: nat, d: nat)
    requires d < 10
    ensures m > 0 ==> DecimalText(m * 10 + d) == DecimalText(m) + [0x30 + d]
    ensures DecimalText(d) == [0x30 + d]
  {
  }

  lemma LastDigit(init: seq<int>, last: int)
    requires AllDigits(init) && IsDigit(last)
    ensures AllDigits(init + [last]) && Decimal(init + [last]) == Decimal(init) * 10 + (last - 0x30)
  {
    var s := init + [last];
    assert s[..|s| - 1] == init && s[|s| - 1] == last;
  }

  lemma NumeralGrows(init: seq<int>, m: nat, d: nat)
    requires Numeral(init, m) && d < 10
    ensures Numeral(init + [0x30 + d], m * 10 + d)
  {
    hide DecimalText;
    var k: nat :| init == Zeros(k) + DecimalText(m);
    DigitAppended(m, d);
    if m == 0 {
      DigitAppended(0, 0);
      assert init + [0x30 + d] == Zeros(k + 1) + DecimalText(d);
    } else {
      assert init + [0x30 + d] == Zeros(k) + DecimalText(m * 10 + d);
    }
  }

  lemma OneDigit(d: nat)
    requires d < 10
    ensures Numeral([0x30 + d], d)
  {
    assert [0x30 + d] == Zeros(0) + DecimalText(d);
  }

  lemma {:induction false} NumeralOf(s: seq<int>)
    requires s != [] && AllDigits(s)
    ensures Numeral(s, Decimal(s))
    decreases |s|
  {
    hide Numeral, Decimal;
    var init, last := s[..|s| - 1], s[|s| - 1];
    assert s == init + [last] && IsDigit(last);
    LastDigit(init, last);
    if init == [] {
      NothingDenoted();
      OneDigit(last - 0x30);
    } else {
      NumeralOf(init);
      NumeralGrows(init, Decimal(init), last - 0x30);
    }
  }

  lemma NothingDenoted()
    ensures Decimal([]) == 0
  {
  }

  // ---------- Strings ----------

  function Codes(s: string): (codes: seq<int>)
    ensures |codes| == |s|
  {
    seq(|s|, i requires 0 <= i < |s| => s[i] as int)
  }

  /** The characters `trim` drops: Unicode `White_Space`. */
  predicate IsSpace(c: char) {
    var n := c as int;
    || 9 <= n <= 13 || n == 0x20 || n == 0x85 || n == 0xA0 || n == 0x1680 || 0x2000 <= n <= 0x200A
    || n == 0x2028 || n == 0x2029 || n == 0x202F || n == 0x205F || n == 0x3000
  }

  /** The characters of that property, one by one. */
  const UNICODE_SPACE: set<char> := {
    '\t', '\n', '\U{0B}', '\U{0C}', '\r', ' ', '\U{85}', '\U{A0}', '\U{1680}',
    '\U{2000}', '\U{2001}', '\U{2002}', '\U{2003}', '\U{2004}', '\U{2005}', '\U{2006}', '\U{2007}',
    '\U{2008}', '\U{2009}', '\U{200A}', '\U{2028}', '\U{2029}', '\U{202F}', '\U{205F}', '\U{3000}'}

  lemma SpaceExactly(c: char)
    ensures IsSpace(c) <==> c in UNICODE_SPACE
  {
  }

  function TrimStart(s: string): (t: string)
    ensures |t| <= |s| && t == s[|s| - |t|..]
    ensures t != "" ==> !IsSpace(t[0])
  {
    if s != "" && IsSpace(s[0]) then TrimStart(s[1..]) else s
  }

  function TrimEnd(s: string): (t: string)
    ensures t <= s
    ensures t != "" ==> !IsSpace(t[|t| - 1])
    ensures forall i :: |t| <= i < |s| ==> IsSpace(s[i])
  {
    if s != "" && IsSpace(s[|s| - 1]) then TrimEnd(s[..|s| - 1]) else s
  }

  function Trim(s: string): string {
    TrimEnd(TrimStart(s))
  }

  /** No white space at either end. */
  predicate Trimmed(s: string) {
    s == "" || (!IsSpace(s[0]) && !IsSpace(s[|s| - 1]))
  }

  lemma TrimProperties(s: string)
    ensures Trimmed(Trim(s)) && |Trim(s)| <= |s|
    ensures Trimmed(s) <==> Trim(s) == s
  {
    var t := TrimStart(s);
    var u := TrimEnd(t);
    if u != "" { assert u[0] == t[0]; }
  }

  predicate EndsWith(s: string, t: string) {
    |t| <= |s| && s[|s| - |t|..] == t
  }

  predicate AllSpace(s: string) {
    forall i :: 0 <= i < |s| ==> IsSpace(s[i])
  }

  predicate AllWhite(s: string) {
    forall i :: 0 <= i < |s| ==> s[i] in UNICODE_SPACE
  }

  lemma WhiteExactly(s: string)
    ensures AllSpace(s) <==> AllWhite(s)
  {
    hide IsSpace, UNICODE_SPACE;
    forall i | 0 <= i < |s| ensures IsSpace(s[i]) <==> s[i] in UNICODE_SPACE { SpaceExactly(s[i]); }
  }

  lemma SpaceInFront(c: char, s: string)
    ensures TrimStart([c] + s) == if IsSpace(c) then TrimStart(s) else [c] + s
  {
    hide IsSpace;
    assert ([c] + s)[1..] == s;
  }

  lemma SpaceBehind(s: string, c: char)
    ensures TrimEnd(s + [c]) == if IsSpace(c) then TrimEnd(s) else s + [c]
  {
    hide IsSpace;
    assert (s + [c])[..|s|] == s;
  }

  lemma {:induction false} StartPadded(left: string, s: string)
    requires AllSpace(left)
    ensures TrimStart(left + s) == TrimStart(s)
    decreases |left|
  {
    hide TrimStart, IsSpace;
    if left == "" {
      assert left + s == s;
    } else {
      StartPadded(left[1..], s);
      SpaceInFront(left[0], left[1..] + s);
      assert left + s == [left[0]] + (left[1..] + s);
    }
  }

  lemma {:induction false} EndPadded(s: string, right: string)
    requires AllSpace(right)
    ensures TrimEnd(s + right) == TrimEnd(s)
    decreases |right|
  {
    hide TrimEnd, IsSpace;
    if right == "" {
      assert s + right == s;
    } else {
      var init, last := right[..|right| - 1], right[|right| - 1];
      EndPadded(s, init);
      SpaceBehind(s + init, last);
      assert s + right == (s + init) + [last];
    }
  }

  /** What is trimmed is the part between white space that has none at its own ends. */
  lemma TrimIs(left: string, core: string, right: string)
    requires AllSpace(left) && AllSpace(right) && Trimmed(core)
    ensures Trim(left + core + right) == core
  {
    hide AllSpace, TrimStart, TrimEnd, Trimmed;
    assert left + core + right == left + (core + right);
    StartPadded(left, core + right);
    if core == "" {
      assert core + right == right + "";
      StartPadded(right, "");
      NothingToTrim();
    } else {
      EndPadded(core, right);
      TrimmedStays(core, right);
    }
  }

  lemma NothingToTrim()
    ensures TrimStart("") == "" && TrimEnd("") == ""
  {
  }

  lemma TrimmedStays(core: string, right: string)
    requires core != "" && Trimmed(core)
    ensures TrimStart(core + right) == core + right && TrimEnd(core) == core
  {
    hide IsSpace;
    assert (core + right)[0] == core[0];
  }

  lemma {:induction false} SpacesDropped(s: string, i: nat)
    requires i < |s| - |TrimStart(s)|
    ensures IsSpace(s[i])
    decreases |s|
  {
    hide IsSpace;
    if i > 0 { SpacesDropped(s[1..], i - 1); }
  }

  lemma StartDrops(s: string) returns (left: string)
    ensures s == left + TrimStart(s) && AllSpace(left)
  {
    hide TrimStart, IsSpace;
    left := s[..|s| - |TrimStart(s)|];
    forall i | 0 <= i < |left| ensures IsSpace(left[i]) { SpacesDropped(s, i); }
  }

  lemma EndDrops(s: string) returns (right: string)
    ensures s == TrimEnd(s) + right && AllSpace(right)
  {
    hide TrimEnd, IsSpace;
    right := s[|TrimEnd(s)|..];
  }

  lemma TrimSplits(s: string) returns (left: string, right: string)
    ensures s == left + Trim(s) + right && AllSpace(left) && AllSpace(right)
  {
    hide TrimStart, TrimEnd, IsSpace, AllSpace;
    left := StartDrops(s);
    right := EndDrops(TrimStart(s));
    assert left + Trim(s) + right == left + (Trim(s) + right);
  }

  /** White space added at either end of a line is trimmed again. */
  lemma TrimPadded(left: string, s: string, right: string)
    requires AllSpace(left) && AllSpace(right)
    ensures Trim(left + s + right) == Trim(s)
  {
    hide Trim, IsSpace;
    var l, r := TrimSplits(s);
    TrimProperties(s);
    assert left + s + right == (left + l) + Trim(s) + (r + right);
    TrimIs(left + l, Trim(s), r + right);
  }
}
