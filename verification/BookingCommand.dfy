/** The two lines a booking client types: a user id, and a booking command of three numbers that the
    server accepts only in the form in which it would print them itself. */
module BookingCommand {

  type Int32 = x: int | -0x8000_0000 <= x < 0x8000_0000

  datatype Option<+T> = None | Some(value: T)

  /** Booked food, concerts and electronics, or the amounts by which a command changes them. */
  datatype Triple = Triple(food: Int32, concert: Int32, electronics: Int32)

  const USER_BASE := 902000
  const USERS := 20

  predicate IsDigit(c: char)
  {
    '0' <= c <= '9'
  }

  predicate IsSpace(c: char)
  {
    c == ' ' || '\t' <= c <= '\r'
  }

  function DigitValue(c: char): nat
    requires IsDigit(c)
  {
    c as int - '0' as int
  }

  /** Reads digits up to the first character that is none. */
  function ScanDigits(s: string, acc: nat): (nat, string)
  {
    if s != [] && IsDigit(s[0]) then ScanDigits(s[1..], 10 * acc + DigitValue(s[0])) else (acc, s)
  }

  // ----- the user id

  /** The digits-only check, atoi and the range check, giving the index 1..20 of the user. */
  function ParseId(line: string): (r: Option<int>)
    ensures r.Some? ==> 1 <= r.value <= USERS
  {
    if exists j :: 0 <= j < |line| && !IsDigit(line[j]) then None
    else
      var id := ScanDigits(line, 0).0 - USER_BASE;
      if id < 1 || id > USERS then None else Some(id)
  }

  // ----- printing and scanning numbers

  function DigitChar(d: nat): (c: char)
    requires d < 10
    ensures IsDigit(c) && DigitValue(c) == d
  {
    "0123456789"[d]
  }

  function PrintNat(n: nat): string
  {
    if n < 10 then [DigitChar(n)] else PrintNat(n / 10) + [DigitChar(n % 10)]
  }

  /** sprintf %d */
  function PrintInt(n: int): string
  {
    if n < 0 then "-" + PrintNat(-n) else PrintNat(n)
  }

  /** sprintf "%d %d %d" */
  function PrintTriple(t: Triple): string
  {
    PrintInt(t.food) + " " + PrintInt(t.concert) + " " + PrintInt(t.electronics)
  }

  datatype Scan = NoMatch | Match(value: int, rest: string)

  function SkipSpaces(s: string): string
  {
    if s != [] && IsSpace(s[0]) then SkipSpaces(s[1..]) else s
  }

  /** One %d of sscanf: leading white space, an optional sign, and digits up to the first
      character that is none.  A blank between two %d adds nothing to this. */
  function ScanInt(s: string): Scan
  {
    var t := SkipSpaces(s);
    var signed := t != [] && (t[0] == '-' || t[0] == '+');
    var digits := if signed then t[1..] else t;
    if digits == [] || !IsDigit(digits[0]) then NoMatch
    else
      var (n, rest) := ScanDigits(digits, 0);
      var value: int := if signed && t[0] == '-' then 0 - n else n;
      Match(value, rest)
  }

  /** What %d stores: the number if it is an int, and otherwise some int that C leaves open. */
  function Stored(n: int, overflow: int -> Int32): Int32
  {
    if -0x8000_0000 <= n < 0x8000_0000 then n else overflow(n)
  }

  /** sscanf "%d %d %d" into variables that hold prior: those after a mismatch keep their value. */
  function Sscanf(line: string, prior: Triple, overflow: int -> Int32): Triple
  {
    match ScanInt(line)
    case NoMatch => prior
    case Match(a, rest) =>
      var t := prior.(food := Stored(a, overflow));
      match ScanInt(rest)
      case NoMatch => t
      case Match(b, rest) =>
        var t := t.(concert := Stored(b, overflow));
        match ScanInt(rest)
        case NoMatch => t
        case Match(c, rest) => t.(electronics := Stored(c, overflow))
  }

  /** The command of a line, if printing what was scanned gives the line back. */
  function ParseCommand(line: string, prior: Triple, overflow: int -> Int32): Option<Triple>
  {
    var modi := Sscanf(line, prior, overflow);
    if PrintTriple(modi) == line then Some(modi) else None
  }

  // ----- what is printed

  function Power10(n: nat): (p: nat)
    ensures p >= 1
  {
    if n == 0 then 1 else 10 * Power10(n - 1)
  }

  lemma DivideTwice(n: nat, d: nat)
    requires d >= 1
    ensures n / 10 / d == n / (10 * d)
  {
    var q := n / 10 / d;
    assert n == 10 * (q * d + n / 10 % d) + n % 10;
    assert q * (10 * d) == 10 * (q * d);
    var rest := n - q * (10 * d);
    assert 0 <= rest < 10 * d;
    QuotientIs(n, 10 * d, q, rest);
  }

  lemma QuotientIs(n: nat, d: nat, q: nat, r: nat)
    requires d >= 1 && n == q * d + r && r < d
    ensures n / d == q
  {
    var q' := n / d;
    assert n == q' * d + n % d;
    NextMultiple(q, q', d);
    NextMultiple(q', q, d);
  }

  lemma {:induction false} NextMultiple(a: nat, b: nat, d: nat)
    ensures a < b ==> a * d + d <= b * d
  {
    if a < b {
      assert b * d == (b - 1) * d + d;
      NextMultiple(a, b - 1, d);
    }
  }

  /** The digit of n at 10^k. */
  function DigitAt(n: nat, k: nat): char
  {
    "0123456789"[n / Power10(k) % 10]
  }

  lemma DigitShifts(n: nat, k: nat)
    requires k >= 1
    ensures DigitAt(n, k) == DigitAt(n / 10, k - 1)
  {
    DivideTwice(n, Power10(k - 1));
  }

  /** A number is printed in the decimal system, without leading zeros: the digit at the place k from the
      right is that of 10^k, and there are as many places as it takes. */
  lemma {:induction false} PrintNatIsDecimal(n: nat, k: nat)
    ensures var s := PrintNat(n);
            && |s| >= 1 && n < Power10(|s|) && (n > 0 ==> n >= Power10(|s| - 1)) && (n == 0 ==> s == "0")
            && (k < |s| ==> s[|s| - 1 - k] == "0123456789"[n / Power10(k) % 10])
  {
    if n >= 10 {
      PrintNatIsDecimal(n / 10, if k == 0 then 0 else k - 1);
      if k > 0 {
        DigitShifts(n, k);
      }
    } else if k == 0 {
      assert n / Power10(0) == n;
    }
  }

  /** A command as it is printed. */
  lemma PrintExample()
    ensures PrintTriple(Triple(1, -2, 30)) == "1 -2 30"
  {
    assert PrintNat(30) == PrintNat(3) + [DigitChar(0)] == "30";
  }

  // ----- scanning undoes printing

  lemma {:induction false} ScanPrintedNat(n: nat, t: string)
    ensures ScanDigits(PrintNat(n) + t, 0) == ScanDigits(t, n)
  {
    if n < 10 {
      var s := PrintNat(n) + t;
      assert s[0] == DigitChar(n) && s[1..] == t;
    } else {
      var s := [DigitChar(n % 10)] + t;
      assert PrintNat(n) + t == PrintNat(n / 10) + s;
      ScanPrintedNat(n / 10, s);
      assert s[0] == DigitChar(n % 10) && s[1..] == t;
    }
  }

  lemma {:induction false} PrintedNatStartsWithDigit(n: nat)
    ensures PrintNat(n) != [] && IsDigit(PrintNat(n)[0])
  {
    if n >= 10 {
      PrintedNatStartsWithDigit(n / 10);
    }
  }

  lemma PrintedIntStarts(n: int, rest: string)
    ensures var s := PrintInt(n) + rest; s != [] && !IsSpace(s[0]) && SkipSpaces(s) == s
  {
    PrintedNatStartsWithDigit(if n < 0 then -n else n);
  }

  lemma ScanNoDigit(s: string, acc: nat)
    requires s == [] || !IsDigit(s[0])
    ensures ScanDigits(s, acc) == (acc, s)
  {
  }

  /** Scanning a printed number gives the number back, before a blank or the end. */
  lemma ScanPrintedInt(n: int, rest: string)
    requires rest == [] || !IsDigit(rest[0])
    ensures ScanInt(PrintInt(n) + rest) == Match(n, rest)
  {
    hide ScanDigits, PrintNat, SkipSpaces;
    var m: nat := if n < 0 then -n else n;
    var s := PrintInt(n) + rest;
    PrintedIntStarts(n, rest);
    PrintedNatStartsWithDigit(m);
    ScanPrintedNat(m, rest);
    ScanNoDigit(rest, m);
    if n < 0 {
      assert s[0] == '-' && s[1..] == PrintNat(m) + rest;
    }
  }

  lemma ScanAfterBlank(s: string)
    requires SkipSpaces(s) == s
    ensures ScanInt(" " + s) == ScanInt(s)
  {
    assert (" " + s)[0] == ' ' && (" " + s)[1..] == s;
  }

  lemma ScanPrintedTriple(t: Triple, prior: Triple, overflow: int -> Int32)
    ensures Sscanf(PrintTriple(t), prior, overflow) == t
  {
    hide ScanInt, PrintInt;
    var third := " " + PrintInt(t.electronics);
    var second := " " + (PrintInt(t.concert) + third);
    assert PrintTriple(t) == PrintInt(t.food) + second;
    ScanPrintedInt(t.food, second);
    ScanPrintedIntAfterBlank(t.concert, third);
    assert PrintInt(t.electronics) + [] == PrintInt(t.electronics);
    ScanPrintedIntAfterBlank(t.electronics, []);
  }

  lemma ScanPrintedIntAfterBlank(n: int, rest: string)
    requires rest == [] || !IsDigit(rest[0])
    ensures ScanInt(" " + (PrintInt(n) + rest)) == Match(n, rest)
  {
    hide ScanInt, PrintInt, SkipSpaces;
    ScanPrintedInt(n, rest);
    PrintedIntStarts(n, rest);
    ScanAfterBlank(PrintInt(n) + rest);
  }

  /** A line is a command exactly when it is three ints as the server prints them, whatever the
      variables held before and whatever an out-of-range number stores; and those are the ints. */
  lemma CommandIsCanonical(line: string, prior: Triple, overflow: int -> Int32)
    ensures forall t :: ParseCommand(line, prior, overflow) == Some(t) <==> line == PrintTriple(t)
  {
    forall t ensures ParseCommand(line, prior, overflow) == Some(t) <==> line == PrintTriple(t) {
      if line == PrintTriple(t) {
        ScanPrintedTriple(t, prior, overflow);
      }
    }
  }

  /** Two commands that print alike are the same command. */
  lemma PrintInjective(t: Triple, u: Triple)
    requires PrintTriple(t) == PrintTriple(u)
    ensures t == u
  {
    var zero := Triple(0, 0, 0);
    ScanPrintedTriple(t, zero, _ => 0);
    ScanPrintedTriple(u, zero, _ => 0);
  }

  /** A printed user number of the twenty users is accepted, and as that user. */
  lemma PrintedIdAccepted(id: int)
    requires 1 <= id <= USERS
    ensures ParseId(PrintNat(USER_BASE + id)) == Some(id)
  {
    var n := USER_BASE + id;
    PrintedNatIsDigits(n);
    ScanPrintedNat(n, []);
    assert PrintNat(n) + [] == PrintNat(n);
  }

  lemma {:induction false} PrintedNatIsDigits(n: nat)
    ensures forall j :: 0 <= j < |PrintNat(n)| ==> IsDigit(PrintNat(n)[j])
  {
    if n >= 10 {
      PrintedNatIsDigits(n / 10);
    }
  }

  ghost predicate AllDigits(s: string)
  {
    forall j :: 0 <= j < |s| ==> IsDigit(s[j])
  }

  function Zeros(k: nat): string
  {
    seq(k, i => '0')
  }

  lemma {:induction false} ScanZeros(k: nat, s: string)
    ensures ScanDigits(Zeros(k) + s, 0) == ScanDigits(s, 0)
  {
    var t := Zeros(k) + s;
    if k == 0 {
      assert t == s;
    } else {
      assert t[0] == '0' && t[1..] == Zeros(k - 1) + s;
      ScanZeros(k - 1, s);
    }
  }

  lemma {:induction false} ScanOneMore(s: string, d: char, acc: nat)
    requires AllDigits(s) && IsDigit(d)
    ensures ScanDigits(s + [d], acc).0 == 10 * ScanDigits(s, acc).0 + DigitValue(d)
  {
    if s == [] {
      assert ([] + [d])[1..] == [];
      assert ScanDigits([d], acc) == ScanDigits([d][1..], 10 * acc + DigitValue(d));
    } else {
      assert (s + [d])[1..] == s[1..] + [d];
      ScanOneMore(s[1..], d, 10 * acc + DigitValue(s[0]));
    }
  }

  /** A line of digits is its number as it is printed, behind some zeros. */
  lemma {:induction false} DigitsAreNumber(line: string) returns (k: nat)
    requires AllDigits(line)
    ensures var n := ScanDigits(line, 0).0; line == Zeros(k) + if n == 0 then [] else PrintNat(n)
  {
    if line == [] {
      k := 0;
    } else {
      var m := |line| - 1;
      var front, d := line[..m], line[m];
      assert line == front + [d];
      k := DigitsAreNumber(front);
      ScanOneMore(front, d, 0);
      k := NumberGrows(front, d, k, ScanDigits(front, 0).0);
    }
  }

  lemma NumberGrows(front: string, d: char, k: nat, v: nat) returns (k': nat)
    requires IsDigit(d) && front == Zeros(k) + if v == 0 then [] else PrintNat(v)
    ensures var n := 10 * v + DigitValue(d); front + [d] == Zeros(k') + if n == 0 then [] else PrintNat(n)
  {
    CharOfDigit(d);
    var n := 10 * v + DigitValue(d);
    k' := if n == 0 then k + 1 else k;
    assert n / 10 == v && n % 10 == DigitValue(d);
    if v == 0 {
      assert front == Zeros(k);
    } else {
      assert PrintNat(n) == PrintNat(v) + [d];
    }
  }

  lemma CharOfDigit(d: char)
    requires IsDigit(d)
    ensures DigitChar(DigitValue(d)) == d
  {
  }

  /** The accepted lines are the numbers of the twenty users, with any number of zeros in front. */
  lemma IdExactly(line: string, id: int)
    ensures ParseId(line) == Some(id) <==>
              1 <= id <= USERS && exists k :: line == Zeros(k) + PrintNat(USER_BASE + id)
  {
    if ParseId(line) == Some(id) {
      var k := DigitsAreNumber(line);
      assert line == Zeros(k) + PrintNat(USER_BASE + id);
    }
    if k :| 1 <= id <= USERS && line == Zeros(k) + PrintNat(USER_BASE + id) {
      var n := USER_BASE + id;
      PrintedNatIsDigits(n);
      ScanZeros(k, PrintNat(n));
      ScanPrintedNat(n, []);
      assert PrintNat(n) + [] == PrintNat(n);
      assert forall j :: 0 <= j < |line| ==> IsDigit(line[j]);
    }
  }
}
