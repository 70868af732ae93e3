/**
 C text as the license programs use it: NUL-terminated strings in fixed buffers, sprintf's
 %d, atoi, and the sscanf format "%d . %d" (section 7.21.6.2 of C11).  Integers are
 mathematical; 32-bit width is a range predicate.
 */
module CText {
  import opened Characters
  import opened Wrappers

  const NUL: char := '\0'

  predicate IsInt32(n: int) { -0x8000_0000 <= n < 0x8000_0000 }

  predicate NoDigits(s: string) { forall i :: 0 <= i < |s| ==> !IsDigit(s[i]) }

  predicate Terminated(s: string) { forall i :: 0 <= i < |s| ==> s[i] != NUL }

  // ---- strings in buffers -------------------------------------------------------------

  /** The characters before the first NUL. */
  function CString(buf: string): (s: string)
    ensures Terminated(s) && s <= buf
    ensures |s| < |buf| ==> buf[|s|] == NUL
  {
    if buf == [] || buf[0] == NUL then [] else [buf[0]] + CString(buf[1..])
  }

  /** recvfrom into a buffer: the datagram covers its head (cut at the buffer's size), the rest
      keeps whatever an earlier datagram left there. */
  function Receive(buf: string, msg: string): (r: string)
    ensures |r| == |buf|
    ensures forall i :: 0 <= i < |buf| ==> r[i] == if i < |msg| then msg[i] else buf[i]
  {
    if |msg| <= |buf| then msg + buf[|msg|..] else msg[..|buf|]
  }

  predicate HasPrefix(s: string, p: string) { p <= s }

  lemma {:induction false} CStringAppend(s: string, rest: string)
    requires Terminated(s)
    ensures CString(s + rest) == s + CString(rest)
  {
    if s == [] {
      assert s + rest == rest;
    } else {
      assert (s + rest)[1..] == s[1..] + rest;
      CStringAppend(s[1..], rest);
    }
  }

  lemma {:induction false} CStringStops(buf: string, k: nat)
    requires k < |buf| && buf[k] == NUL
    ensures |CString(buf)| <= k
  {
    if k > 0 && buf[0] != NUL {
      CStringStops(buf[1..], k - 1);
    }
  }

  // ---- printing -----------------------------------------------------------------------

  function DigitChar(d: nat): (c: char)
    requires d < 10
    ensures IsDigit(c) && c == "0123456789"[d] && DigitValue(c) == d
  {
    '0' + d as char
  }

  function DigitValue(c: char): (d: nat)
    requires IsDigit(c)
    ensures d < 10 && c == "0123456789"[d]
  {
    (c - '0') as nat
  }

  function Digits(n: nat): (s: string)
    ensures |s| > 0 && forall i :: 0 <= i < |s| ==> IsDigit(s[i])
    ensures s[0] == '0' ==> n == 0
  {
    if n < 10 then [DigitChar(n)] else Digits(n / 10) + [DigitChar(n % 10)]
  }

  /** sprintf's %d. */
  function Decimal(n: int): (s: string)
    ensures |s| > 0 && Terminated(s)
    ensures forall i :: 0 <= i < |s| ==> !IsSpace(s[i])
  {
    if n < 0 then "-" + Digits(-n) else Digits(n)
  }

  // ---- scanning -----------------------------------------------------------------------

  function SkipSpace(s: string): string {
    if s != [] && IsSpace(s[0]) then SkipSpace(s[1..]) else s
  }

  /** How many digits `s` starts with. */
  function DigitRun(s: string): (k: nat)
    ensures k <= |s| && forall i :: 0 <= i < k ==> IsDigit(s[i])
  {
    if s != [] && IsDigit(s[0]) then 1 + DigitRun(s[1..]) else 0
  }

  function DigitsValue(s: string): nat
    requires forall i :: 0 <= i < |s| ==> IsDigit(s[i])
  {
    if s == [] then 0 else 10 * DigitsValue(s[..|s| - 1]) + DigitValue(s[|s| - 1])
  }

  /** A digit run with the sign already read: the number and the unread input. */
  function ScanDigits(negative: bool, u: string): Option<(int, string)> {
    var k := DigitRun(u);
    var magnitude: int := DigitsValue(u[..k]);
    if k == 0 then None else Some((if negative then -magnitude else magnitude, u[k..]))
  }

  /** An optional sign and digits. */
  function ScanSigned(t: string): Option<(int, string)> {
    if t != [] && (t[0] == '-' || t[0] == '+') then ScanDigits(t[0] == '-', t[1..]) else ScanDigits(false, t)
  }

  /** The %d directive: white space, an optional sign, the longest run of digits.  None is a
      matching failure; otherwise the number and the unread input. */
  function ScanInt(s: string): Option<(int, string)> { ScanSigned(SkipSpace(s)) }

  /** atoi: zero where %d would not match. */
  function Atoi(s: string): int {
    match ScanInt(s)
    case Some((n, _)) => n
    case None => 0
  }

  /** sscanf(s, "%d . %d", &pid, &slot) when it converts both, None when it returns less than 2. */
  function ScanTicket(s: string): Option<(int, int)> {
    match ScanInt(s)
    case None => None
    case Some((pid, rest)) =>
      var dot := SkipSpace(rest);
      if dot == [] || dot[0] != '.' then None
      else match ScanInt(SkipSpace(dot[1..]))
        case None => None
        case Some((slot, _)) => Some((pid, slot))
  }

  /** sprintf(…, "%d . %d", pid, slot). */
  function TicketText(pid: int, slot: int): string { Decimal(pid) + " . " + Decimal(slot) }

  // ---- scanning undoes printing -------------------------------------------------------

  lemma {:induction false} DigitsValueOfDigits(n: nat)
    ensures DigitsValue(Digits(n)) == n
  {
    if n < 10 {
      assert Digits(n)[..0] == [];
    } else {
      var s := Digits(n);
      assert s[..|s| - 1] == Digits(n / 10);
      DigitsValueOfDigits(n / 10);
    }
  }

  lemma {:induction false} DigitRunOfDigits(ds: string, rest: string)
    requires forall i :: 0 <= i < |ds| ==> IsDigit(ds[i])
    requires rest == [] || !IsDigit(rest[0])
    ensures DigitRun(ds + rest) == |ds|
  {
    if ds == [] {
      assert ds + rest == rest;
    } else {
      assert (ds + rest)[1..] == ds[1..] + rest;
      DigitRunOfDigits(ds[1..], rest);
    }
  }

  predicate IsBlank(s: string) { forall i :: 0 <= i < |s| ==> IsSpace(s[i]) }

  predicate IsDigits(s: string) { s != "" && forall i :: 0 <= i < |s| ==> IsDigit(s[i]) }

  predicate StartsWithout(s: string, test: char -> bool) { s == "" || !test(s[0]) }

  predicate IsSign(sign: string) { sign == "" || sign == "+" || sign == "-" }

  lemma {:induction false} SkipSpaceOf(blank: string, rest: string)
    requires IsBlank(blank) && StartsWithout(rest, IsSpace)
    ensures SkipSpace(blank + rest) == rest
  {
    if blank == "" {
      assert blank + rest == rest;
    } else {
      assert (blank + rest)[1..] == blank[1..] + rest;
      SkipSpaceOf(blank[1..], rest);
    }
  }

  function Signed(sign: string, n: nat): int { if sign == "-" then -(n as int) else n }

  lemma ScanDigitsReads(negative: bool, digits: string, rest: string)
    requires IsDigits(digits) && StartsWithout(rest, IsDigit)
    ensures ScanDigits(negative, digits + rest) ==
            Some((Signed(if negative then "-" else "", DigitsValue(digits)), rest))
  {
    var u := digits + rest;
    DigitRunOfDigits(digits, rest);
    assert u[..DigitRun(u)] == digits;
    assert u[DigitRun(u)..] == rest;
  }

  lemma SignedText(sign: string, u: string)
    requires IsSign(sign) && (sign == "" ==> StartsWithout(u, c => c == '+' || c == '-'))
    ensures ScanSigned(sign + u) == ScanDigits(sign == "-", u)
    ensures sign + u != "" ==> (sign + u)[0] == if sign == "" then u[0] else sign[0]
  {
    if sign == "" {
      assert sign + u == u;
    } else {
      assert (sign + u)[1..] == u;
    }
  }

  /** %d in full: white space, an optional sign and digits are read as that number, up to the first
      character that is no digit. */
  lemma ScanIntReads(blank: string, sign: string, digits: string, rest: string)
    requires IsBlank(blank) && IsSign(sign) && IsDigits(digits) && StartsWithout(rest, IsDigit)
    ensures ScanInt(blank + (sign + (digits + rest))) == Some((Signed(sign, DigitsValue(digits)), rest))
  {
    var u := digits + rest;
    assert u[0] == digits[0];
    SignedText(sign, u);
    SkipSpaceOf(blank, sign + u);
    ScanDigitsReads(sign == "-", digits, rest);
  }

  /** %d reads back what %d printed, whatever non-digit text follows. */
  lemma ScanDecimal(n: int, rest: string)
    requires rest == [] || !IsDigit(rest[0])
    ensures ScanInt(Decimal(n) + rest) == Some((n, rest))
  {
    var sign, digits := if n < 0 then "-" else "", Digits(if n < 0 then -n else n);
    DigitsValueOfDigits(if n < 0 then -n else n);
    ScanIntReads("", sign, digits, rest);
    assert Decimal(n) + rest == "" + (sign + (digits + rest));
  }

  lemma {:induction false} AtoiDecimal(n: int)
    ensures Atoi(Decimal(n)) == n
  {
    ScanDecimal(n, "");
    assert Decimal(n) + "" == Decimal(n);
  }

  // ---- scanning other text ------------------------------------------------------------

  /** Without a digit behind the white space and the optional sign %d fails, and atoi gives 0. */
  lemma ScanIntFails(blank: string, sign: string, rest: string)
    requires IsBlank(blank) && IsSign(sign) && StartsWithout(rest, IsDigit)
    requires sign == "" ==> StartsWithout(rest, c => IsSpace(c) || c == '+' || c == '-')
    ensures ScanInt(blank + (sign + rest)) == None && Atoi(blank + (sign + rest)) == 0
  {
    SignedText(sign, rest);
    SkipSpaceOf(blank, sign + rest);
  }

  /** The ticket format in full: any white space, or none, may stand around the dot. */
  lemma ScanTicketReads(pid: int, before: string, after: string, slot: int, tail: string)
    requires IsBlank(before) && IsBlank(after) && StartsWithout(tail, IsDigit)
    ensures ScanTicket(Decimal(pid) + (before + ("." + (after + (Decimal(slot) + tail))))) == Some((pid, slot))
  {
    var back := Decimal(slot) + tail;
    var dot := "." + (after + back);
    assert back[0] == Decimal(slot)[0] && dot[0] == '.' && dot[1..] == after + back;
    ScanDecimalThen(pid, before, dot);
    SkipSpaceOf(before, dot);
    SkipSpaceOf(after, back);
    ScanDecimal(slot, tail);
  }

  /** The ticket round trip: a printed ticket followed by any stale non-digit tail parses to the
      same pid and slot. */
  lemma ScanTicketText(pid: int, slot: int, tail: string)
    requires tail == [] || !IsDigit(tail[0])
    ensures ScanTicket(TicketText(pid, slot) + tail) == Some((pid, slot))
  {
    ScanTicketReads(pid, " ", " ", slot, tail);
    SpacedDot(Decimal(pid), Decimal(slot), tail);
  }

  lemma SpacedDot(a: string, b: string, tail: string)
    ensures (a + " . " + b) + tail == a + (" " + ("." + (" " + (b + tail))))
  {
    assert " . " + (b + tail) == " " + ("." + (" " + (b + tail)));
    assert (a + " . " + b) + tail == a + (" . " + (b + tail));
  }

  lemma ScanDecimalThen(n: int, before: string, rest: string)
    requires IsBlank(before) && StartsWithout(rest, IsDigit)
    ensures ScanInt(Decimal(n) + (before + rest)) == Some((n, before + rest))
  {
    assert before + rest != "" ==> (before + rest)[0] == if before == "" then rest[0] else before[0];
    ScanDecimal(n, before + rest);
  }

  /** Without the dot it is no ticket. */
  lemma ScanTicketNeedsDot(pid: int, before: string, rest: string)
    requires IsBlank(before) && StartsWithout(rest, c => IsDigit(c) || IsSpace(c) || c == '.')
    ensures ScanTicket(Decimal(pid) + (before + rest)) == None
  {
    ScanDecimalThen(pid, before, rest);
    SkipSpaceOf(before, rest);
  }

  /** A number below 10^k prints with at most k digits. */
  lemma {:induction false} DigitsLength(n: nat, k: nat)
    requires 0 < k && n < Pow10(k)
    ensures |Digits(n)| <= k
  {
    if n >= 10 {
      DigitsLength(n / 10, k - 1);
    }
  }

  function Pow10(k: nat): nat { if k == 0 then 1 else 10 * Pow10(k - 1) }

  /** A 32-bit number prints in at most eleven characters. */
  lemma {:induction false} DecimalLength(n: int)
    requires IsInt32(n)
    ensures |Decimal(n)| <= 11
  {
    assert Pow10(10) == 10 * (10 * (10 * (10 * (10 * (10 * (10 * (10 * (10 * 10))))))))
    by {
      assert Pow10(2) == 100; assert Pow10(4) == 10000; assert Pow10(6) == 1000000; assert Pow10(8) == 100000000;
    }
    DigitsLength(if n < 0 then -n else n, 10);
  }
}
