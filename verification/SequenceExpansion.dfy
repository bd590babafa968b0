/** Numeric sequences such as `host08..11.example`: the words are taken apart, and every number from the
    left to the right bound becomes a zero-padded name. */
module SequenceExpansion {
  import opened Basics

  predicate IsDigit(c: char) { '0' <= c <= '9' }

  predicate IsAlpha(c: char) { 'a' <= c <= 'z' || 'A' <= c <= 'Z' }

  predicate AllDigits(s: string)
  {
    forall i | 0 <= i < |s| :: IsDigit(s[i])
  }

  function DigitOf(c: char): (d: nat)
    requires IsDigit(c)
    ensures d < 10
  {
    c as int - '0' as int
  }

  function CharOf(d: nat): (c: char)
    requires d < 10
    ensures IsDigit(c) && DigitOf(c) == d
  {
    '0' + d as char
  }

  function Pow10(k: nat): (p: nat)
    ensures p > 0
  {
    if k == 0 then 1 else 10 * Pow10(k - 1)
  }

  /** The number a run of digits spells. */
  function Value(s: string): nat
    requires AllDigits(s)
  {
    if s == "" then 0 else 10 * Value(s[..|s| - 1]) + DigitOf(s[|s| - 1])
  }

  function Decimal(n: nat): (s: string)
    ensures s != "" && AllDigits(s)
  {
    if n < 10 then [CharOf(n)] else Decimal(n / 10) + [CharOf(n % 10)]
  }

  function Zeros(k: nat): (s: string)
    ensures |s| == k && AllDigits(s)
  {
    if k == 0 then "" else Zeros(k - 1) + "0"
  }

  function Filled(d: string, pad: nat): (s: string)
    requires AllDigits(d)
    ensures |s| >= pad && |s| >= |d| && AllDigits(s)
  {
    if |d| >= pad then d else Zeros(pad - |d|) + d
  }

  /** `%0*d`: at least `pad` digits. */
  function Padded(n: nat, pad: nat): (s: string)
    ensures |s| >= pad && AllDigits(s)
  {
    Filled(Decimal(n), pad)
  }

  // ----- numbers and digits -----

  lemma ValueLast(s: string, c: char)
    requires AllDigits(s) && IsDigit(c)
    ensures AllDigits(s + [c]) && Value(s + [c]) == 10 * Value(s) + DigitOf(c)
  {
    assert (s + [c])[..|s|] == s;
  }

  lemma {:induction false} ValueSplit(s: string, t: string)
    requires AllDigits(s) && AllDigits(t)
    ensures AllDigits(s + t) && Value(s + t) == Value(s) * Pow10(|t|) + Value(t)
  {
    if t == "" {
      assert s + t == s;
    } else {
      var u, c := t[..|t| - 1], t[|t| - 1];
      ValueSplit(s, u);
      ValueLast(s + u, c);
      assert s + t == s + u + [c];
      TenTimes(Value(s), Pow10(|u|));
    }
  }

  lemma TenTimes(x: nat, p: nat)
    ensures 10 * (x * p) == x * (10 * p)
  {
  }

  lemma {:induction false} ZerosValue(k: nat)
    ensures Value(Zeros(k)) == 0
  {
    if k > 0 {
      ZerosValue(k - 1);
      assert Zeros(k)[..k - 1] == Zeros(k - 1);
    }
  }

  lemma {:induction false} LeadingZeros(k: nat, s: string)
    requires AllDigits(s)
    ensures AllDigits(Zeros(k) + s) && Value(Zeros(k) + s) == Value(s)
  {
    var t := Zeros(k) + s;
    if s == "" {
      assert t == Zeros(k);
      ZerosValue(k);
    } else {
      LeadingZeros(k, s[..|s| - 1]);
      assert t[..|t| - 1] == Zeros(k) + s[..|s| - 1];
    }
  }

  lemma {:induction false} DecimalValue(n: nat)
    ensures Value(Decimal(n)) == n
  {
    if n >= 10 {
      DecimalValue(n / 10);
      var s := Decimal(n);
      assert s[..|s| - 1] == Decimal(n / 10);
    } else {
      assert Decimal(n)[..0] == "";
    }
  }

  /** A padded number reads back as itself. */
  lemma {:induction false} PaddedValue(n: nat, pad: nat)
    ensures Value(Padded(n, pad)) == n
  {
    DecimalValue(n);
    FilledValue(Decimal(n), pad);
  }

  lemma {:induction false} FilledValue(d: string, pad: nat)
    requires AllDigits(d)
    ensures AllDigits(Filled(d, pad)) && Value(Filled(d, pad)) == Value(d)
  {
    if |d| < pad {
      LeadingZeros(pad - |d|, d);
    }
  }

  lemma {:induction false} DecimalLength(n: nat, k: nat)
    requires k > 0
    ensures |Decimal(n)| <= k <==> n < Pow10(k)
  {
    if k == 1 {
      assert Pow10(1) == 10 * Pow10(0);
    } else if n >= 10 {
      DecimalLength(n / 10, k - 1);
    }
  }

  lemma {:induction false} ValueBound(s: string)
    requires AllDigits(s)
    ensures Value(s) < Pow10(|s|)
  {
    if s != "" {
      ValueBound(s[..|s| - 1]);
    }
  }

  lemma {:induction false} ValueInjective(s: string, t: string)
    requires AllDigits(s) && AllDigits(t) && |s| == |t| && Value(s) == Value(t)
    ensures s == t
  {
    if s != "" {
      var n := |s| - 1;
      assert DigitOf(s[n]) == DigitOf(t[n]) && Value(s[..n]) == Value(t[..n]);
      ValueInjective(s[..n], t[..n]);
      assert s == s[..n] + [s[n]] && t == t[..n] + [t[n]];
    }
  }

  /** Padding to its own length gives a run of digits back. */
  lemma {:induction false} ValuePadded(s: string)
    requires AllDigits(s) && s != ""
    ensures Padded(Value(s), |s|) == s
  {
    ValueBound(s);
    DecimalLength(Value(s), |s|);
    PaddedValue(Value(s), |s|);
    ValueInjective(Padded(Value(s), |s|), s);
  }

  // ----- taking the words apart -----

  /** Where the trailing digits of a word start. */
  function DigitsFrom(s: string): (i: nat)
    ensures i <= |s| && AllDigits(s[i..]) && (i > 0 ==> !IsDigit(s[i - 1]))
  {
    if s == "" || !IsDigit(s[|s| - 1]) then |s|
    else
      var i := DigitsFrom(s[..|s| - 1]);
      assert s[i..] == s[..|s| - 1][i..] + [s[|s| - 1]];
      i
  }

  /** Where the first letter of a word is. */
  function FirstAlpha(s: string): (i: nat)
    ensures i <= |s| && (forall k | 0 <= k < i :: !IsAlpha(s[k])) && (i < |s| ==> IsAlpha(s[i]))
  {
    if s == "" || IsAlpha(s[0]) then 0 else 1 + FirstAlpha(s[1..])
  }

  datatype Parts = Parts(prefix: string, left: string, right: string, suffix: string)

  function Split(l: string, r: string): Parts
  {
    var i := DigitsFrom(l);
    var rest := if l[..i] <= r then r[i..] else r;
    var k := FirstAlpha(rest);
    Parts(l[..i], l[i..], rest[..k], rest[k..])
  }

  /** Digits on both sides, the right ones within 32 bits. */
  predicate Numeric(p: Parts)
  {
    && p.left != "" && p.right != "" && AllDigits(p.left) && AllDigits(p.right)
    && Value(p.right) <= MAX_UINT
  }

  function Lo(p: Parts): nat
    requires Numeric(p)
  {
    Value(p.left)
  }

  /** A right bound below the left one counts from it. */
  function Hi(p: Parts): (h: nat)
    requires Numeric(p)
    ensures h >= Lo(p)
  {
    if Value(p.right) < Value(p.left) then Value(p.left) + Value(p.right) else Value(p.right)
  }

  function Pad(p: Parts): nat
  {
    if |p.left| >= |p.right| then |p.left| else |p.right|
  }

  const NAME_LIMIT := 1022
  const MAX_UINT := 0xffff_ffff
  const MAX_INT := 0x7fff_ffff

  /** The highest power of ten a double can hold. */
  const MAX_POWER := 308

  function Cut(s: string): string
  {
    if |s| > NAME_LIMIT then s[..NAME_LIMIT] else s
  }

  function NameOf(p: Parts, n: nat): string
  {
    Cut(p.prefix + Padded(n, Pad(p)) + p.suffix)
  }

  /** The names from the left bound up to `n`. */
  function NamesTo(p: Parts, n: nat): (s: seq<string>)
    requires Numeric(p) && n + 1 >= Lo(p)
    ensures |s| == n + 1 - Lo(p)
    ensures forall i | 0 <= i < |s| :: s[i] == NameOf(p, Lo(p) + i)
  {
    seq(n + 1 - Lo(p), i requires 0 <= i < n + 1 - Lo(p) => NameOf(p, Lo(p) + i))
  }

  function SequenceNames(l: string, r: string): Option<seq<string>>
  {
    var p := Split(l, r);
    if Numeric(p) then Some(NamesTo(p, Hi(p))) else None
  }

  /** What the visitor's arithmetic can hold: the left run is added up through powers of ten in floating
      point, the names are printed as signed numbers, and the right run has no sign. */
  predicate SmallNumbers(l: string, r: string)
  {
    var p := Split(l, r);
    && |p.left| <= MAX_POWER + 1 && Value(p.left) <= MAX_INT
    && (p.right != "" ==> p.right[0] != '+' && p.right[0] != '-')
    && (Numeric(p) ==> Hi(p) <= MAX_INT)
  }

  /** The buffer holds all digits, if not all of what follows them. */
  predicate DigitsFit(p: Parts)
    requires Numeric(p)
  {
    |p.prefix| + |Padded(Hi(p), Pad(p))| <= NAME_LIMIT
  }

  // ----- what a sequence is -----

  lemma {:induction false} PaddedLength(m: nat, n: nat, pad: nat)
    requires m <= n
    ensures |Padded(m, pad)| <= |Padded(n, pad)|
  {
    DecimalLength(m, |Decimal(n)|);
    DecimalLength(n, |Decimal(n)|);
  }

  /** What stands in the buffer after the digits: as much of the suffix as it has room for. */
  function Tail(p: Parts, digits: nat): string
  {
    if |p.prefix| + digits + |p.suffix| <= NAME_LIMIT then p.suffix
    else if |p.prefix| + digits <= NAME_LIMIT then p.suffix[..NAME_LIMIT - |p.prefix| - digits]
    else ""
  }

  /** Every name is the prefix, digits that read back as its number, and what fits of the suffix. */
  lemma NameReads(p: Parts, n: nat)
    requires Numeric(p) && DigitsFit(p) && Lo(p) <= n <= Hi(p)
    ensures var d := Padded(n, Pad(p));
            NameOf(p, n) == p.prefix + d + Tail(p, |d|) && Value(d) == n
  {
    PaddedLength(n, Hi(p), Pad(p));
    PaddedValue(n, Pad(p));
  }

  /** The sequence has hi - lo + 1 names, all different, and starts with the left word itself, as far as it
      and the suffix fit, when the right run is no longer than the left. */
  lemma SequenceLaws(l: string, r: string)
    requires Numeric(Split(l, r)) && DigitsFit(Split(l, r))
    ensures var p := Split(l, r);
            && SequenceNames(l, r).Some?
            && |SequenceNames(l, r).value| == Hi(p) - Lo(p) + 1
            && NoRepeats(SequenceNames(l, r).value)
            && (|p.right| <= |p.left| ==> SequenceNames(l, r).value[0] == Cut(l + p.suffix))
  {
    var p := Split(l, r);
    SplitParts(l, r);
    NamesDiffer(p);
    FirstName(p);
  }

  lemma SplitParts(l: string, r: string)
    ensures var p := Split(l, r); p.prefix + p.left == l && (p.suffix != "" ==> IsAlpha(p.suffix[0]))
  {
  }

  lemma FirstName(p: Parts)
    requires Numeric(p)
    ensures |p.right| <= |p.left| ==> NameOf(p, Lo(p)) == Cut(p.prefix + p.left + p.suffix)
  {
    ValuePadded(p.left);
  }

  lemma NamesDiffer(p: Parts)
    requires Numeric(p) && DigitsFit(p) && (p.suffix != "" ==> IsAlpha(p.suffix[0]))
    ensures NoRepeats(NamesTo(p, Hi(p)))
  {
    var s := NamesTo(p, Hi(p));
    forall i, j | 0 <= i < j < |s| ensures s[i] != s[j] {
      NamesApart(p, Lo(p) + i, Lo(p) + j);
    }
  }

  /** A shorter number is followed by a letter, or by nothing, where a longer one has a digit. */
  lemma NamesApart(p: Parts, m: nat, n: nat)
    requires Numeric(p) && DigitsFit(p) && (p.suffix != "" ==> IsAlpha(p.suffix[0])) && Lo(p) <= m < n <= Hi(p)
    ensures NameOf(p, m) != NameOf(p, n)
  {
    var d, e := Padded(m, Pad(p)), Padded(n, Pad(p));
    NameReads(p, m);
    NameReads(p, n);
    PaddedLength(m, n, Pad(p));
    PaddedLength(n, Hi(p), Pad(p));
    DigitsApart(p.prefix, d, Tail(p, |d|), e, Tail(p, |e|));
  }

  lemma DigitsApart(prefix: string, d: string, t: string, e: string, u: string)
    requires AllDigits(d) && AllDigits(e) && d != e && |d| <= |e| && (t != "" ==> IsAlpha(t[0]))
    ensures prefix + d + t != prefix + e + u
  {
    var a, b, k := prefix + d + t, prefix + e + u, |prefix|;
    if |d| == |e| {
      var i :| 0 <= i < |d| && d[i] != e[i];
      assert a[k + i] == d[i] && b[k + i] == e[i];
    } else if t != "" {
      assert a[k + |d|] == t[0] && b[k + |d|] == e[|d|];
    }
  }

  /** Nine digits on either side are always small enough. */
  lemma ShortRunsFit(l: string, r: string)
    requires var p := Split(l, r);
             && |p.left| <= 9 && |p.right| <= 9 && (p.right != "" ==> p.right[0] != '+' && p.right[0] != '-')
    ensures SmallNumbers(l, r)
  {
    var p := Split(l, r);
    ValueBound(p.left);
    Pow10Monotone(|p.left|, 9);
    if Numeric(p) {
      ValueBound(p.right);
      Pow10Monotone(|p.right|, 9);
    }
  }

  lemma {:induction false} Pow10Monotone(j: nat, k: nat)
    requires j <= k
    ensures Pow10(j) <= Pow10(k)
  {
    if j < k {
      Pow10Monotone(j, k - 1);
    }
  }

  // ----- the visitor's loops -----

  /** Scans the left word from its end, adding up its trailing digits. */
  method ScanLeft(l: string) returns (i: nat, num: nat)
    ensures i == DigitsFrom(l) && num == Value(l[i..])
  {
    i, num := |l|, 0;
    var scale := 1;
    while i > 0 && IsDigit(l[i - 1])
      invariant i <= |l| && AllDigits(l[i..]) && num == Value(l[i..]) && scale == Pow10(|l| - i)
    {
      assert l[i - 1..] == [l[i - 1]] + l[i..];
      assert [l[i - 1]][..0] == "";
      ValueSplit([l[i - 1]], l[i..]);
      num := num + DigitOf(l[i - 1]) * scale;
      scale := scale * 10;
      i := i - 1;
    }
  }

  method FindAlpha(s: string) returns (i: nat)
    ensures i == FirstAlpha(s)
  {
    i := 0;
    while i < |s| && !IsAlpha(s[i])
      invariant i <= |s| && forall k | 0 <= k < i :: !IsAlpha(s[k])
    {
      i := i + 1;
    }
  }

  /** The whole visitor, for runs its arithmetic can hold. */
  method ExpandSequence(l: string, r: string) returns (names: Option<seq<string>>)
    requires SmallNumbers(l, r)
    ensures names == SequenceNames(l, r)
  {
    var i, lnum := ScanLeft(l);
    var rest := if l[..i] <= r then r[i..] else r;
    var k := FindAlpha(rest);
    var p := Parts(l[..i], l[i..], rest[..k], rest[k..]);
    assert p == Split(l, r);
    if p.right == "" || !AllDigits(p.right) || p.left == "" {
      return None;
    }
    var rnum := Value(p.right);
    if rnum > MAX_UINT {
      return None;
    }
    if rnum < lnum {
      rnum := rnum + lnum;
    }
    var s := ListNames(p, lnum, rnum);
    names := Some(s);
  }

  method ListNames(p: Parts, lo: nat, hi: nat) returns (s: seq<string>)
    requires Numeric(p) && lo == Lo(p) && hi == Hi(p)
    ensures s == NamesTo(p, hi)
  {
    s := [];
    var n := lo;
    while n <= hi
      invariant lo <= n <= hi + 1 && |s| == n - lo
      invariant forall i | 0 <= i < |s| :: s[i] == NameOf(p, lo + i)
    {
      s := s + [NameOf(p, n)];
      n := n + 1;
    }
  }
}
