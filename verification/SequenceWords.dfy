/** What a sequence means for the two words it is written with. */
module SequenceWords {
  import opened Basics
  import opened SequenceExpansion

  /** The two words, spelled out: a common part `pre`, the digits `a` and `b`, and what follows the right
      digits.  The right word repeats the common part, or does not start with it. */
  ghost predicate Spelled(l: string, r: string, pre: string, a: string, b: string, suf: string)
  {
    && l == pre + a && (r == pre + b + suf || (r == b + suf && !(pre <= r)))
    && a != "" && AllDigits(a) && b != "" && AllDigits(b)
    && (pre == "" || !IsDigit(pre[|pre| - 1])) && (suf == "" || IsAlpha(suf[0]))
  }

  /** `s` is `pre`, then `n` in decimal with zeros in front up to `width` digits, then `suf`; of more than
      1022 characters only the first 1022. */
  ghost predicate Shows(s: string, pre: string, n: nat, width: nat, suf: string)
  {
    exists d :: IsNumeral(d, n, width) && s == First1022(pre + d + suf)
  }

  ghost predicate IsNumeral(d: string, n: nat, width: nat)
  {
    && AllDigits(d) && Value(d) == n && |d| >= width && d != ""
    && (|d| > width && |d| > 1 ==> d[0] != '0')
  }

  ghost function First1022(s: string): string
  {
    if |s| <= 1022 then s else s[..1022]
  }

  // ----- taking spelled words apart -----

  lemma {:induction false} DigitsFromEnd(pre: string, a: string)
    requires AllDigits(a) && (pre == "" || !IsDigit(pre[|pre| - 1]))
    ensures DigitsFrom(pre + a) == |pre|
  {
    if a == "" {
      assert pre + a == pre;
    } else {
      var n := |a| - 1;
      DigitsFromEnd(pre, a[..n]);
      assert (pre + a)[..|pre + a| - 1] == pre + a[..n];
    }
  }

  lemma {:induction false} FirstAlphaAfter(b: string, suf: string)
    requires AllDigits(b) && (suf == "" || IsAlpha(suf[0]))
    ensures FirstAlpha(b + suf) == |b|
  {
    if b == "" {
      assert b + suf == suf;
    } else {
      FirstAlphaAfter(b[1..], suf);
      assert (b + suf)[1..] == b[1..] + suf;
      assert IsDigit((b + suf)[0]);
    }
  }

  lemma SplitSpelled(l: string, r: string, pre: string, a: string, b: string, suf: string)
    requires Spelled(l, r, pre, a, b, suf)
    ensures Split(l, r) == Parts(pre, a, b, suf)
  {
    LeftSplits(l, pre, a);
    RestOf(r, pre, b, suf);
    RightSplits(if pre <= r then r[|pre|..] else r, b, suf);
  }

  lemma LeftSplits(l: string, pre: string, a: string)
    requires l == pre + a && AllDigits(a) && (pre == "" || !IsDigit(pre[|pre| - 1]))
    ensures DigitsFrom(l) == |pre| && l[..|pre|] == pre && l[|pre|..] == a
  {
    DigitsFromEnd(pre, a);
  }

  lemma RestOf(r: string, pre: string, b: string, suf: string)
    requires r == pre + b + suf || (r == b + suf && !(pre <= r))
    ensures (if pre <= r then r[|pre|..] else r) == b + suf
  {
    if r == pre + b + suf {
      assert r == pre + (b + suf);
    }
  }

  lemma RightSplits(rest: string, b: string, suf: string)
    requires rest == b + suf && AllDigits(b) && (suf == "" || IsAlpha(suf[0]))
    ensures FirstAlpha(rest) == |b| && rest[..|b|] == b && rest[|b|..] == suf
  {
    FirstAlphaAfter(b, suf);
  }

  /** Words that split into digits on both sides are spelled that way. */
  lemma SpelledIfNumeric(l: string, r: string)
    requires Numeric(Split(l, r))
    ensures var p := Split(l, r); Spelled(l, r, p.prefix, p.left, p.right, p.suffix)
  {
    LeftWord(l, r);
    RightWord(l, r);
  }

  lemma LeftWord(l: string, r: string)
    ensures var p := Split(l, r); l == p.prefix + p.left && (p.prefix == "" || !IsDigit(p.prefix[|p.prefix| - 1]))
  {
  }

  lemma RightWord(l: string, r: string)
    ensures var p := Split(l, r);
            && (p.suffix == "" || IsAlpha(p.suffix[0]))
            && (r == p.prefix + p.right + p.suffix || (r == p.right + p.suffix && !(p.prefix <= r)))
  {
    var p := Split(l, r);
    var rest := if p.prefix <= r then r[|p.prefix|..] else r;
    var k := FirstAlpha(rest);
    assert rest == rest[..k] + rest[k..];
    if p.prefix <= r {
      Rejoin(r, p.prefix, rest, p.right, p.suffix);
    }
  }

  lemma Rejoin(r: string, pre: string, rest: string, b: string, suf: string)
    requires pre <= r && rest == r[|pre|..] && rest == b + suf
    ensures r == pre + b + suf
  {
  }

  // ----- the numerals -----

  lemma {:induction false} DecimalNoZero(n: nat)
    ensures |Decimal(n)| > 1 ==> Decimal(n)[0] != '0'
    ensures n > 0 ==> Decimal(n)[0] != '0'
  {
    if n >= 10 {
      DecimalNoZero(n / 10);
    } else if n > 0 {
      assert DigitOf(Decimal(n)[0]) == n;
    }
  }

  lemma PaddedIsNumeral(n: nat, width: nat)
    ensures IsNumeral(Padded(n, width), n, width)
  {
    PaddedValue(n, width);
    DecimalNoZero(n);
  }

  lemma NameShows(p: Parts, n: nat)
    ensures Shows(NameOf(p, n), p.prefix, n, Pad(p), p.suffix)
  {
    PaddedIsNumeral(n, Pad(p));
    assert NameOf(p, n) == First1022(p.prefix + Padded(n, Pad(p)) + p.suffix);
  }

  // ----- the theorems -----

  /** How many names a sequence from number `a` to number `b` has: up to `b`, or, if `b` is below `a`,
      `b` more after the first. */
  ghost function HowMany(a: nat, b: nat): nat
  {
    if b < a then b + 1 else b - a + 1
  }

  ghost function Wider(a: string, b: string): nat
  {
    if |a| > |b| then |a| else |b|
  }

  /** The names count up from `n`. */
  ghost predicate CountUp(s: seq<string>, pre: string, n: nat, width: nat, suf: string)
  {
    forall i | 0 <= i < |s| :: Shows(s[i], pre, n + i, width, suf)
  }

  lemma NamesShow(p: Parts)
    requires Numeric(p)
    ensures var s := NamesTo(p, Hi(p));
            && |s| == HowMany(Value(p.left), Value(p.right))
            && CountUp(s, p.prefix, Value(p.left), Wider(p.left, p.right), p.suffix)
  {
    var s := NamesTo(p, Hi(p));
    forall i | 0 <= i < |s| ensures Shows(s[i], p.prefix, Value(p.left) + i, Wider(p.left, p.right), p.suffix) {
      NameShows(p, Value(p.left) + i);
    }
  }

  /** The names of a sequence, from its words alone: one for each number from the left one on, with at
      least as many digits as the longer of the two runs. */
  lemma SequenceOfWords(l: string, r: string, pre: string, a: string, b: string, suf: string)
    requires Spelled(l, r, pre, a, b, suf) && Value(b) < 0x1_0000_0000
    ensures SequenceNames(l, r).Some?
    ensures var s := SequenceNames(l, r).value;
            && |s| == HowMany(Value(a), Value(b)) && CountUp(s, pre, Value(a), Wider(a, b), suf)
  {
    SplitSpelled(l, r, pre, a, b, suf);
    SequenceOfParts(l, r, Parts(pre, a, b, suf));
  }

  lemma SequenceOfParts(l: string, r: string, p: Parts)
    requires Split(l, r) == p && Numeric(p)
    ensures SequenceNames(l, r).Some?
    ensures var s := SequenceNames(l, r).value;
            && |s| == HowMany(Value(p.left), Value(p.right))
            && CountUp(s, p.prefix, Value(p.left), Wider(p.left, p.right), p.suffix)
  {
    NamesShow(p);
  }

  /** A pair of words has names exactly when it is spelled so, with a right number within 32 bits. */
  lemma SequenceExactly(l: string, r: string)
    ensures SequenceNames(l, r).Some? <==>
        exists pre, a, b, suf :: Spelled(l, r, pre, a, b, suf) && Value(b) < 0x1_0000_0000
  {
    if SequenceNames(l, r).Some? {
      SpelledIfNumeric(l, r);
      var p := Split(l, r);
      assert Spelled(l, r, p.prefix, p.left, p.right, p.suffix) && Value(p.right) < 0x1_0000_0000;
    }
    if pre, a, b, suf :| Spelled(l, r, pre, a, b, suf) && Value(b) < 0x1_0000_0000 {
      SplitSpelled(l, r, pre, a, b, suf);
    }
  }

  /** A numeral of a number is determined by its width, so the names are. */
  lemma {:induction false} NumeralUnique(d: string, e: string, n: nat, width: nat)
    requires IsNumeral(d, n, width) && IsNumeral(e, n, width)
    ensures d == e
  {
    if |d| == |e| {
      ValueInjective(d, e);
    } else if |d| < |e| {
      LongerIsLarger(d, e);
    } else {
      LongerIsLarger(e, d);
    }
  }

  lemma LongerIsLarger(d: string, e: string)
    requires AllDigits(d) && AllDigits(e) && d != "" && |d| < |e| && e[0] != '0'
    ensures Value(d) < Value(e)
  {
    ValueBound(d);
    assert e == [e[0]] + e[1..];
    assert [e[0]][..0] == "";
    ValueSplit([e[0]], e[1..]);
    Pow10Monotone(|d|, |e[1..]|);
    AtLeastOnce(DigitOf(e[0]), Pow10(|e[1..]|));
  }

  lemma AtLeastOnce(k: nat, p: nat)
    requires k >= 1
    ensures k * p >= p
  {
  }

  lemma HostTenSpelled()
    ensures Spelled("host10", "3", "host", "10", "3", "") && Value("10") == 10 && Value("3") == 3
  {
    OneDigit('3');
    TwoDigits('0');
    assert "host" + "10" == "host10" && "3" + "" == "3" && !("host" <= "3");
  }

  lemma FourNames(s: seq<string>)
    requires |s| == 4 && s[0] == "host" + "10" && s[1] == "host" + "11"
    requires s[2] == "host" + "12" && s[3] == "host" + "13"
    ensures s == ["host10", "host11", "host12", "host13"]
  {
    assert "host" + "10" == "host10" && "host" + "11" == "host11";
    assert "host" + "12" == "host12" && "host" + "13" == "host13";
  }

  /** Counting up from 10 by 3: a right number below the left one counts from it. */
  lemma CountsFromLeft()
    ensures SequenceNames("host10", "3") == Some(["host10", "host11", "host12", "host13"])
  {
    HostTenSpelled();
    SequenceOfWords("host10", "3", "host", "10", "3", "");
    FourShown(SequenceNames("host10", "3").value);
  }

  lemma FourShown(s: seq<string>)
    requires |s| == 4 && CountUp(s, "host", 10, 2, "")
    ensures s == ["host10", "host11", "host12", "host13"]
  {
    ShownAs(s[0], '0');
    ShownAs(s[1], '1');
    ShownAs(s[2], '2');
    ShownAs(s[3], '3');
    FourNames(s);
  }

  lemma OneDigit(c: char)
    requires IsDigit(c)
    ensures AllDigits([c]) && Value([c]) == DigitOf(c)
  {
    assert [c][..0] == "";
    assert Value([]) == 0;
  }

  lemma TwoDigits(c: char)
    requires IsDigit(c)
    ensures IsNumeral(['1', c], 10 + DigitOf(c), 2)
  {
    OneDigit('1');
    assert ['1', c][..1] == ['1'];
  }

  lemma ShownAs(s: string, c: char)
    requires IsDigit(c) && Shows(s, "host", 10 + DigitOf(c), 2, "")
    ensures s == "host" + ['1', c]
  {
    var d :| IsNumeral(d, 10 + DigitOf(c), 2) && s == First1022("host" + d + "");
    TwoDigits(c);
    NumeralUnique(d, ['1', c], 10 + DigitOf(c), 2);
    assert "host" + d + "" == "host" + ['1', c];
  }
}
