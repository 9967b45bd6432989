/** Splitting and joining strings on a separator character, and decimal numerals. */
module Text {
  import opened Lists

  function Split(s: string, c: char): (parts: seq<string>)
    ensures |parts| >= 1
  {
    if s == [] then [""]
    else if s[0] == c then [""] + Split(s[1..], c)
    else
      var rest := Split(s[1..], c);
      [[s[0]] + rest[0]] + rest[1..]
  }

  function Join(parts: seq<string>, c: char): string {
    if parts == [] then ""
    else if |parts| == 1 then parts[0]
    else parts[0] + [c] + Join(parts[1..], c)
  }

  lemma {:induction false} JoinPrepend(x: char, parts: seq<string>, c: char)
    requires parts != []
    ensures Join([[x] + parts[0]] + parts[1..], c) == [x] + Join(parts, c)
  {
    if |parts| > 1 {
      assert ([[x] + parts[0]] + parts[1..])[1..] == parts[1..];
      assert [x] + parts[0] + [c] + Join(parts[1..], c) == [x] + (parts[0] + [c] + Join(parts[1..], c));
    }
  }

  /** Joining undoes splitting. */
  lemma {:induction false} JoinSplit(s: string, c: char)
    ensures Join(Split(s, c), c) == s
  {
    if s != [] {
      JoinSplit(s[1..], c);
      var rest := Split(s[1..], c);
      if s[0] == c {
        assert ([""] + rest)[1..] == rest;
        assert "" + [c] + Join(rest, c) == [s[0]] + s[1..];
      } else {
        JoinPrepend(s[0], rest, c);
      }
    }
  }

  /** A piece without the separator is split off whole. */
  lemma {:induction false} SplitFirst(a: string, b: string, c: char)
    requires c !in a
    ensures Split(a + [c] + b, c) == [a] + Split(b, c)
  {
    if a == [] {
      assert a + [c] + b == [c] + b;
      assert ([c] + b)[1..] == b;
    } else {
      SplitFirst(a[1..], b, c);
      assert (a + [c] + b)[1..] == a[1..] + [c] + b;
      assert [a[0]] + a[1..] == a;
    }
  }

  lemma {:induction false} SplitWhole(a: string, c: char)
    requires c !in a
    ensures Split(a, c) == [a]
  {
    if a != [] {
      SplitWhole(a[1..], c);
      assert [a[0]] + a[1..] == a;
    }
  }

  function Prepend(x: char, parts: seq<string>): seq<string>
    requires parts != []
  {
    [[x] + parts[0]] + parts[1..]
  }

  lemma {:induction false} SplitStep(x: char, t: string, c: char)
    ensures Split([x] + t, c) == if x == c then [""] + Split(t, c) else Prepend(x, Split(t, c))
  {
    assert ([x] + t)[1..] == t;
  }

  lemma {:induction false} PrependConcat(x: char, p: seq<string>, q: seq<string>)
    requires p != []
    ensures Prepend(x, p + q) == Prepend(x, p) + q
  {
    assert (p + q)[1..] == p[1..] + q;
  }

  lemma {:induction false} SplitConcatStep(x: char, t: string, b: string, c: char)
    requires Split(t + ([c] + b), c) == Split(t, c) + Split(b, c)
    ensures Split([x] + (t + ([c] + b)), c) == Split([x] + t, c) + Split(b, c)
  {
    hide Split, Prepend;
    SplitStep(x, t, c);
    SplitStep(x, t + ([c] + b), c);
    PrependConcat(x, Split(t, c), Split(b, c));
    assert [""] + (Split(t, c) + Split(b, c)) == [""] + Split(t, c) + Split(b, c);
  }

  /** Splitting a joined pair splits both. */
  lemma {:induction false} SplitConcat(a: string, b: string, c: char)
    ensures Split(a + ([c] + b), c) == Split(a, c) + Split(b, c)
  {
    hide Split;
    if a == [] {
      assert a + ([c] + b) == [c] + b;
      SplitStep(c, b, c);
      assert Split(a, c) == [""] by {
        SplitWhole(a, c);
      }
    } else {
      SplitConcat(a[1..], b, c);
      SplitConcatStep(a[0], a[1..], b, c);
      assert [a[0]] + a[1..] == a;
      assert [a[0]] + (a[1..] + ([c] + b)) == a + ([c] + b);
    }
  }

  /** Splitting undoes joining when no part holds the separator. */
  lemma {:induction false} SplitJoin(parts: seq<string>, c: char)
    requires parts != [] && forall i :: 0 <= i < |parts| ==> c !in parts[i]
    ensures Split(Join(parts, c), c) == parts
  {
    if |parts| == 1 {
      SplitWhole(parts[0], c);
    } else {
      SplitJoin(parts[1..], c);
      SplitFirst(parts[0], Join(parts[1..], c), c);
    }
  }

  lemma {:induction false} SplitParts(s: string, c: char)
    ensures forall i :: 0 <= i < |Split(s, c)| ==> c !in Split(s, c)[i]
  {
    if s != [] {
      SplitParts(s[1..], c);
    }
  }

  predicate OccursAt(s: string, i: nat, a: string) {
    i + |a| <= |s| && s[i..i + |a|] == a
  }

  /** `a` stands somewhere in `s`. */
  predicate Contains(s: string, a: string) {
    exists i: nat :: i <= |s| && OccursAt(s, i, a)
  }

  // ---------- decimal numerals ----------

  predicate IsDigit(c: char) { '0' <= c <= '9' }

  function DigitOf(d: int): char
    requires 0 <= d < 10
  {
    '0' + d as char
  }

  function ValueOf(c: char): int
    requires IsDigit(c)
  {
    (c - '0') as int
  }

  function Numeral(n: nat): string {
    if n < 10 then [DigitOf(n)] else Numeral(n / 10) + [DigitOf(n % 10)]
  }

  /** The printed form of an integer. */
  function Print(n: int): string { if n < 0 then "-" + Numeral(-n) else Numeral(n) }

  /** The length of the leading run of digits. */
  function DigitRun(s: string): (k: nat)
    ensures k <= |s| && forall i :: 0 <= i < k ==> IsDigit(s[i])
  {
    if s == [] || !IsDigit(s[0]) then 0 else 1 + DigitRun(s[1..])
  }

  function ReadDigits(s: string): nat
    requires forall i :: 0 <= i < |s| ==> IsDigit(s[i])
  {
    if s == [] then 0 else 10 * ReadDigits(s[..|s| - 1]) + ValueOf(s[|s| - 1])
  }

  /** White space of the language: what `trim` strips and `\s` matches. */
  predicate IsSpace(c: char) {
    || c in " \t\n\r" || c == '\U{0B}' || c == '\U{0C}' || c == '\U{A0}' || c == '\U{1680}'
    || '\U{2000}' <= c <= '\U{200A}' || c == '\U{2028}' || c == '\U{2029}' || c == '\U{202F}'
    || c == '\U{205F}' || c == '\U{3000}' || c == '\U{FEFF}'
  }

  function SkipSpace(s: string, i: nat): (j: nat)
    requires i <= |s|
    ensures i <= j <= |s|
    ensures forall k :: i <= k < j ==> IsSpace(s[k])
    ensures j < |s| ==> !IsSpace(s[j])
    decreases |s| - i
  {
    if i < |s| && IsSpace(s[i]) then SkipSpace(s, i + 1) else i
  }

  function ReadRun(digits: string, sign: int): Option<int> {
    var k := DigitRun(digits);
    if k == 0 then None else Some(sign * ReadDigits(digits[..k]))
  }

  /** `parseInt` in base ten: leading white space, a sign, then as many digits as follow. */
  function ParseInt(s: string): Option<int> {
    var i := SkipSpace(s, 0);
    if i < |s| && s[i] == '-' then ReadRun(s[i + 1..], -1)
    else if i < |s| && s[i] == '+' then ReadRun(s[i + 1..], 1)
    else ReadRun(s[i..], 1)
  }

  lemma {:induction false} NumeralReads(n: nat)
    ensures Numeral(n) != [] && forall i :: 0 <= i < |Numeral(n)| ==> IsDigit(Numeral(n)[i])
    ensures ReadDigits(Numeral(n)) == n
  {
    if n < 10 {
      assert Numeral(n)[..0] == [];
    } else {
      NumeralReads(n / 10);
      assert Numeral(n)[..|Numeral(n)| - 1] == Numeral(n / 10);
    }
  }

  lemma {:induction false} DigitRunWhole(s: string)
    requires forall i :: 0 <= i < |s| ==> IsDigit(s[i])
    ensures DigitRun(s) == |s|
  {
    if s != [] {
      DigitRunWhole(s[1..]);
    }
  }

  lemma {:induction false} DigitStarts(c: char)
    requires IsDigit(c)
    ensures !IsSpace(c) && c != '-' && c != '+'
  {
  }

  lemma {:induction false} DigitsParse(s: string)
    requires s != [] && forall i :: 0 <= i < |s| ==> IsDigit(s[i])
    ensures ParseInt(s) == Some(ReadDigits(s))
  {
    hide ReadDigits, DigitRun, IsSpace, IsDigit;
    DigitRunWhole(s);
    DigitStarts(s[0]);
    assert s[0..] == s;
    assert s[..|s|] == s;
  }

  /** A printed non-negative number reads back. */
  lemma {:induction false} ParsePrinted(n: nat)
    ensures ParseInt(Numeral(n)) == Some(n)
  {
    NumeralReads(n);
    DigitsParse(Numeral(n));
  }

  lemma {:induction false} DigitRunStops(digits: string, rest: string)
    requires (forall i :: 0 <= i < |digits| ==> IsDigit(digits[i])) && (rest != [] ==> !IsDigit(rest[0]))
    ensures DigitRun(digits + rest) == |digits|
  {
    if digits == [] {
      assert digits + rest == rest;
    } else {
      DigitRunStops(digits[1..], rest);
      assert (digits + rest)[1..] == digits[1..] + rest;
    }
  }

  lemma {:induction false} SkipLead(lead: string, rest: string)
    requires (forall i :: 0 <= i < |lead| ==> IsSpace(lead[i])) && (rest != [] ==> !IsSpace(rest[0]))
    ensures SkipSpace(lead + rest, 0) == |lead|
  {
    hide IsSpace;
    var k := SkipSpace(lead + rest, 0);
    assert rest != [] ==> (lead + rest)[|lead|] == rest[0];
  }

  /** White space, a sign or none, digits and what is no digit read as the signed number. */
  lemma {:induction false} SignedReads(lead: string, sign: string, digits: string, rest: string)
    requires forall i :: 0 <= i < |lead| ==> IsSpace(lead[i])
    requires sign in {"", "-", "+"} && digits != [] && forall i :: 0 <= i < |digits| ==> IsDigit(digits[i])
    requires rest != [] ==> !IsDigit(rest[0])
    ensures ParseInt(lead + (sign + (digits + rest)))
         == Some((if sign == "-" then -1 else 1) * ReadDigits(digits))
  {
    hide IsSpace, IsDigit, ReadDigits, DigitRun, SkipSpace;
    var tail := sign + (digits + rest);
    var s, run := lead + tail, digits + rest;
    SignStarts(sign, digits[0]);
    assert tail[0] == if sign == "" then digits[0] else sign[0];
    SkipLead(lead, tail);
    DigitRunStops(digits, rest);
    assert run[..|digits|] == digits;
    assert s[|lead|] == tail[0];
    assert s[|lead| + |sign|..] == run;
  }

  lemma {:induction false} SignStarts(sign: string, digit: char)
    requires sign in {"", "-", "+"} && IsDigit(digit)
    ensures !IsSpace(digit) && digit != '-' && digit != '+'
    ensures sign == "" || (sign == "-" && sign[0] == '-') || (sign == "+" && sign[0] == '+')
    ensures sign != "" ==> !IsSpace(sign[0])
  {
  }

  /** A printed number reads back. */
  lemma {:induction false} PrintReads(n: int)
    ensures ParseInt(Print(n)) == Some(n)
  {
    hide ReadDigits, Numeral, ParseInt;
    if n < 0 {
      NumeralReads(-n);
      SignedReads("", "-", Numeral(-n), "");
      assert "" + ("-" + (Numeral(-n) + "")) == Print(n);
    } else {
      ParsePrinted(n);
    }
  }
}
