/** File names of revocation markers: a fixed-width decimal sequence number between a prefix and a suffix. */
module MarkerNames {
  import opened Bytes
  import opened Decimal
  import Texts

  const PREFIX: string := "sequence-"
  const SUFFIX: string := ".json"
  const WIDTH: nat := 20

  function Zeros(n: nat): (s: string)
    ensures |s| == n && forall i :: 0 <= i < n ==> s[i] == '0'
  {
    seq(n, _ => '0')
  }

  /** `{sequence:020}`: never truncated, padded with zeros on the left. */
  function Padded(sequence: nat): (s: string)
    ensures AllDigits(s)
  {
    var digits := Print(sequence);
    if |digits| >= WIDTH then digits else Zeros(WIDTH - |digits|) + digits
  }

  function FileName(sequence: nat): string { PREFIX + Padded(sequence) + SUFFIX }

  function StripPrefix(name: string, prefix: string): Option<string> {
    if |prefix| <= |name| && name[..|prefix|] == prefix then Some(name[|prefix|..]) else None
  }

  function StripSuffix(name: string, suffix: string): Option<string> {
    if |suffix| <= |name| && name[|name| - |suffix|..] == suffix then Some(name[..|name| - |suffix|]) else None
  }

  function Parse(name: string): Option<nat> {
    match StripPrefix(name, PREFIX)
    case None => None
    case Some(rest) =>
      match StripSuffix(rest, SUFFIX)
      case None => None
      case Some(digits) =>
        if |digits| != WIDTH || !AllDigits(digits) || Value(digits) >= U64_LIMIT then None
        else if FileName(Value(digits)) == name then Some(Value(digits))
        else None
  }

  lemma {:induction false} LeadingZeros(n: nat, digits: string)
    requires AllDigits(digits)
    ensures Value(Zeros(n) + digits) == Value(digits)
    decreases |digits|, n
  {
    var all := Zeros(n) + digits;
    if digits != [] {
      LeadingZeros(n, digits[..|digits| - 1]);
      assert all[..|all| - 1] == Zeros(n) + digits[..|digits| - 1];
    } else if n > 0 {
      LeadingZeros(n - 1, digits);
      assert all[..|all| - 1] == Zeros(n - 1) + digits;
    }
  }

  lemma PaddedIsFixedWidth(sequence: nat)
    requires sequence < U64_LIMIT
    ensures |Padded(sequence)| == WIDTH && Value(Padded(sequence)) == sequence
  {
    U64IsTwentyDigits();
    PrintedLength(sequence, WIDTH);
    PrintedValue(sequence);
    LeadingZeros(WIDTH - |Print(sequence)|, Print(sequence));
    if |Print(sequence)| == WIDTH {
      assert Zeros(0) + Print(sequence) == Print(sequence);
    }
  }

  /** Two digit strings of one length that denote the same number are the same string. */
  lemma {:induction false} SameValueSameText(a: string, b: string)
    requires AllDigits(a) && AllDigits(b) && |a| == |b| && Value(a) == Value(b)
    ensures a == b
  {
    if a != [] {
      var x, y := a[..|a| - 1], b[..|b| - 1];
      SameValueSameText(x, y);
      assert a == x + [a[|a| - 1]] && b == y + [b[|b| - 1]];
    }
  }

  lemma NameParts(digits: string)
    ensures StripPrefix(PREFIX + digits + SUFFIX, PREFIX) == Some(digits + SUFFIX)
    ensures StripSuffix(digits + SUFFIX, SUFFIX) == Some(digits)
  {
    assert (PREFIX + digits + SUFFIX)[..|PREFIX|] == PREFIX;
    assert (PREFIX + digits + SUFFIX)[|PREFIX|..] == digits + SUFFIX;
    assert (digits + SUFFIX)[|digits|..] == SUFFIX;
  }

  /** Every sequence number is read back from its file name. */
  lemma ParseOfFileName(sequence: nat)
    requires sequence < U64_LIMIT
    ensures Parse(FileName(sequence)) == Some(sequence)
  {
    PaddedIsFixedWidth(sequence);
    NameParts(Padded(sequence));
  }

  /** Nothing but the canonical name of a 64-bit number is accepted. */
  lemma ParseIsExact(name: string, sequence: nat)
    ensures Parse(name) == Some(sequence) <==> sequence < U64_LIMIT && name == FileName(sequence)
  {
    if sequence < U64_LIMIT && name == FileName(sequence) {
      ParseOfFileName(sequence);
    }
  }

  /** Byte order on strings of one length. */
  predicate Precedes(a: string, b: string)
    requires |a| == |b|
  {
    a != [] && (a[0] < b[0] || (a[0] == b[0] && Precedes(a[1..], b[1..])))
  }

  lemma Distribute(d: nat, p: nat)
    ensures d * (10 * p) == 10 * (d * p)
  {
  }

  lemma {:induction false} SplitValue(a: string)
    requires AllDigits(a) && a != []
    ensures AllDigits(a[1..]) && Value(a) == DigitValue(a[0]) * Pow10(|a| - 1) + Value(a[1..])
    ensures Value(a[1..]) < Pow10(|a| - 1)
    decreases |a|
  {
    if |a| == 1 {
      assert Value(a[..0]) == 0 && Value(a[1..]) == 0;
    } else {
      var front, tail, last := a[..|a| - 1], a[1..], a[|a| - 1];
      SplitValue(front);
      assert tail[..|tail| - 1] == front[1..];
      assert tail[|tail| - 1] == last;
      Distribute(DigitValue(a[0]), Pow10(|a| - 2));
    }
  }

  lemma LeadingDigitDecides(x: nat, y: nat, p: nat, v: nat, w: nat)
    requires v < p && w < p
    ensures x * p + v < y * p + w <==> x < y || (x == y && v < w)
  {
    if x < y {
      assert (x + 1) * p <= y * p;
    } else if y < x {
      assert (y + 1) * p <= x * p;
    }
  }

  /** On digit strings of one length, byte order is numeric order. */
  lemma {:induction false} PrecedesIsNumeric(a: string, b: string)
    requires AllDigits(a) && AllDigits(b) && |a| == |b|
    ensures Precedes(a, b) <==> Value(a) < Value(b)
    decreases |a|
  {
    if a != [] {
      SplitValue(a);
      SplitValue(b);
      PrecedesIsNumeric(a[1..], b[1..]);
      DigitOrder(a[0], b[0]);
      LeadingDigitDecides(DigitValue(a[0]), DigitValue(b[0]), Pow10(|a| - 1), Value(a[1..]), Value(b[1..]));
    }
  }

  lemma DigitOrder(c: char, d: char)
    requires IsDigit(c) && IsDigit(d)
    ensures c < d <==> DigitValue(c) < DigitValue(d)
    ensures c == d <==> DigitValue(c) == DigitValue(d)
  {
  }

  lemma {:induction false} PrecedesInside(prefix: string, a: string, b: string, suffix: string)
    requires |a| == |b|
    ensures Precedes(prefix + a + suffix, prefix + b + suffix) <==> Precedes(a, b)
    decreases |prefix|, |a|
  {
    var x, y := prefix + a + suffix, prefix + b + suffix;
    if prefix != [] {
      PrecedesInside(prefix[1..], a, b, suffix);
      assert x[1..] == prefix[1..] + a + suffix && y[1..] == prefix[1..] + b + suffix;
    } else if a != [] {
      PrecedesInside(prefix, a[1..], b[1..], suffix);
      assert x[1..] == prefix + a[1..] + suffix && y[1..] == prefix + b[1..] + suffix;
    } else {
      assert x == suffix && y == suffix;
      NotBeforeItself(suffix);
    }
  }

  lemma {:induction false} NotBeforeItself(a: string)
    ensures !Precedes(a, a)
  {
    if a != [] {
      NotBeforeItself(a[1..]);
    }
  }

  lemma {:induction false} PrecedesIsLess(a: string, b: string, k: nat)
    requires |a| == |b| && k <= |a|
    ensures Precedes(a[k..], b[k..]) <==> Texts.LessFrom(a, b, k)
    decreases |a| - k
  {
    if k < |a| {
      PrecedesIsLess(a, b, k + 1);
      assert a[k..][1..] == a[k + 1..] && b[k..][1..] == b[k + 1..];
    }
  }

  /** A directory listing in byte order is a listing in numeric order. */
  lemma NamesSortNumerically(m: nat, n: nat)
    requires m < U64_LIMIT && n < U64_LIMIT
    ensures |FileName(m)| == |FileName(n)|
    ensures Texts.Less(FileName(m), FileName(n)) <==> m < n
  {
    PaddedIsFixedWidth(m);
    PaddedIsFixedWidth(n);
    PrecedesIsLess(FileName(m), FileName(n), 0);
    assert FileName(m)[0..] == FileName(m) && FileName(n)[0..] == FileName(n);
    PrecedesInside(PREFIX, Padded(m), Padded(n), SUFFIX);
    PrecedesIsNumeric(Padded(m), Padded(n));
  }
}
