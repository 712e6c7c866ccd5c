/** Length-prefixed binary messages: unsigned 64-bit big-endian numbers, and texts behind their length.
    A message is a string of bytes, one character each. */
module Fields {
  import opened Bytes

  // ---------------------------------------------------------------------------------------------
  // Big-endian numbers
  // ---------------------------------------------------------------------------------------------

  function Pow256(k: nat): nat { if k == 0 then 1 else 256 * Pow256(k - 1) }

  function BigEndian(n: nat, k: nat): (s: string)
    ensures |s| == k
  {
    if k == 0 then "" else BigEndian(n / 256, k - 1) + [(n % 256) as char]
  }

  /** The number in the first `k` bytes. */
  function Value(s: string, k: nat): nat
    requires k <= |s|
  {
    if k == 0 then 0 else Value(s, k - 1) * 256 + s[k - 1] as nat
  }

  predicate AreBytes(s: string, k: nat)
    requires k <= |s|
  {
    forall i :: 0 <= i < k ==> s[i] as nat < 256
  }

  lemma {:induction false} ValueOfPrefix(s: string, t: string, k: nat)
    requires k <= |s| && k <= |t| && forall i :: 0 <= i < k ==> s[i] == t[i]
    ensures Value(s, k) == Value(t, k)
  {
    if k > 0 {
      ValueOfPrefix(s, t, k - 1);
    }
  }

  lemma {:induction false} ValueOfBigEndian(n: nat, k: nat)
    requires n < Pow256(k)
    ensures Value(BigEndian(n, k), k) == n && AreBytes(BigEndian(n, k), k)
  {
    if k > 0 {
      ValueOfBigEndian(n / 256, k - 1);
      ValueOfPrefix(BigEndian(n, k), BigEndian(n / 256, k - 1), k - 1);
    }
  }

  lemma {:induction false} BigEndianOfValue(s: string, k: nat)
    requires k <= |s| && AreBytes(s, k)
    ensures BigEndian(Value(s, k), k) == s[..k] && Value(s, k) < Pow256(k)
  {
    if k > 0 {
      BigEndianOfValue(s, k - 1);
      assert s[..k] == s[..k - 1] + [s[k - 1]];
    }
  }

  lemma WordsAreU64()
    ensures Pow256(8) == U64_LIMIT
  {
    assert Pow256(4) == 256 * (256 * (256 * (256 * Pow256(0))));
    assert Pow256(8) == 256 * (256 * (256 * (256 * Pow256(4))));
  }

  function Word(n: nat): (s: string)
    ensures |s| == 8
  {
    BigEndian(n, 8)
  }

  /** The number in the first eight bytes, if there are as many and they are bytes. */
  function ReadWord(s: string): (n: Option<nat>)
    ensures n.Some? ==> |s| >= 8
  {
    if |s| >= 8 && AreBytes(s, 8) then Some(Value(s, 8)) else None
  }

  /** Reading is the exact inverse of writing. */
  lemma ReadWordIsExact(s: string, n: nat)
    ensures ReadWord(s) == Some(n) <==> n < U64_LIMIT && |s| >= 8 && s[..8] == Word(n)
  {
    WordsAreU64();
    if ReadWord(s).Some? {
      BigEndianOfValue(s, 8);
    }
    if n < U64_LIMIT && |s| >= 8 && s[..8] == Word(n) {
      ValueOfBigEndian(n, 8);
      ValueOfPrefix(s, Word(n), 8);
      assert forall i :: 0 <= i < 8 ==> s[i] == s[..8][i];
    }
  }

  /** A way to write numbers into eight bytes, and to read them back. */
  datatype Words = Words(write: nat -> string, read: string -> Option<nat>)

  ghost predicate Exact(w: Words) {
    && (forall n :: |w.write(n)| == 8)
    && (forall s, n :: ExactAt(w, s, n))
  }

  predicate ExactAt(w: Words, s: string, n: nat) {
    w.read(s) == Some(n) <==> n < U64_LIMIT && |s| >= 8 && s[..8] == w.write(n)
  }

  /** The words of every message. */
  function U64(): Words { Words((n: nat) => Word(n), (s: string) => ReadWord(s)) }

  lemma U64IsExact()
    ensures Exact(U64())
  {
    forall s, n ensures ExactAt(U64(), s, n) {
      ReadWordIsExact(s, n);
    }
  }

  lemma WordAhead(w: Words, n: nat, rest: string)
    requires Exact(w) && n < U64_LIMIT
    ensures |w.write(n)| == 8 && w.read(w.write(n) + rest) == Some(n) && (w.write(n) + rest)[8..] == rest
  {
    assert (w.write(n) + rest)[..8] == w.write(n);
    assert ExactAt(w, w.write(n) + rest, n);
  }

  lemma WordWasAhead(w: Words, s: string)
    requires Exact(w) && w.read(s).Some?
    ensures |s| >= 8 && s == w.write(w.read(s).value) + s[8..] && w.read(s).value < U64_LIMIT
  {
    assert ExactAt(w, s, w.read(s).value);
    assert s == s[..8] + s[8..];
  }

  // ---------------------------------------------------------------------------------------------
  // Messages
  // ---------------------------------------------------------------------------------------------

  datatype Parts = End | Number(n: nat, rest: Parts) | Text(text: string, rest: Parts)

  /** What a reader knows of a message in advance: which parts follow each other. */
  datatype Shape = Done | ANumber(next: Shape) | AText(next: Shape)

  function ShapeOf(p: Parts): Shape {
    match p
    case End => Done
    case Number(_, rest) => ANumber(ShapeOf(rest))
    case Text(_, rest) => AText(ShapeOf(rest))
  }

  /** Numbers and lengths have 64 bits. */
  predicate Fit(p: Parts) {
    match p
    case End => true
    case Number(n, rest) => n < U64_LIMIT && Fit(rest)
    case Text(text, rest) => |text| < U64_LIMIT && Fit(rest)
  }

  function Encode(w: Words, p: Parts): string {
    match p
    case End => ""
    case Number(n, rest) => w.write(n) + Encode(w, rest)
    case Text(text, rest) => w.write(|text|) + (text + Encode(w, rest))
  }

  datatype Decoded = Decoded(parts: Parts, tail: string)

  function Decode(w: Words, shape: Shape, s: string): Option<Decoded> {
    match shape
    case Done => Some(Decoded(End, s))
    case ANumber(next) =>
      if |s| < 8 || w.read(s).None? then None
      else
        (match Decode(w, next, s[8..])
         case None => None
         case Some(d) => Some(Decoded(Number(w.read(s).value, d.parts), d.tail)))
    case AText(next) =>
      if |s| < 8 || w.read(s).None? || |s| - 8 < w.read(s).value then None
      else
        var n := w.read(s).value;
        (match Decode(w, next, s[8 + n..])
         case None => None
         case Some(d) => Some(Decoded(Text(s[8..8 + n], d.parts), d.tail)))
  }

  lemma DecodeNumber(w: Words, next: Shape, n: nat, rest: string)
    requires Exact(w) && n < U64_LIMIT
    ensures Decode(w, ANumber(next), w.write(n) + rest) ==
            match Decode(w, next, rest)
            case None => None
            case Some(d) => Some(Decoded(Number(n, d.parts), d.tail))
  {
    WordAhead(w, n, rest);
  }

  lemma DecodeText(w: Words, next: Shape, text: string, rest: string)
    requires Exact(w) && |text| < U64_LIMIT
    ensures Decode(w, AText(next), w.write(|text|) + (text + rest)) ==
            match Decode(w, next, rest)
            case None => None
            case Some(d) => Some(Decoded(Text(text, d.parts), d.tail))
  {
    WordAhead(w, |text|, text + rest);
    var s := w.write(|text|) + (text + rest);
    assert s[8..8 + |text|] == text && s[8 + |text|..] == rest;
  }

  /** Whatever follows, decoding gives back what was encoded. */
  lemma {:induction false} DecodeEncoded(w: Words, p: Parts, tail: string)
    requires Exact(w) && Fit(p)
    ensures Decode(w, ShapeOf(p), Encode(w, p) + tail) == Some(Decoded(p, tail))
  {
    match p
    case End => assert "" + tail == tail;
    case Number(n, rest) =>
      DecodeEncoded(w, rest, tail);
      var s := Encode(w, rest) + tail;
      assert Encode(w, p) + tail == w.write(n) + s;
      DecodeNumber(w, ShapeOf(rest), n, s);
    case Text(text, rest) =>
      DecodeEncoded(w, rest, tail);
      var s := Encode(w, rest) + tail;
      assert Encode(w, p) + tail == w.write(|text|) + (text + s);
      DecodeText(w, ShapeOf(rest), text, s);
  }

  predicate WasEncoded(w: Words, shape: Shape, s: string, d: Decoded) {
    Fit(d.parts) && ShapeOf(d.parts) == shape && s == Encode(w, d.parts) + d.tail
  }

  lemma NumberWasEncoded(w: Words, next: Shape, s: string, d: Decoded)
    requires Exact(w) && |s| >= 8 && w.read(s).Some? && WasEncoded(w, next, s[8..], d)
    ensures WasEncoded(w, ANumber(next), s, Decoded(Number(w.read(s).value, d.parts), d.tail))
  {
    WordWasAhead(w, s);
  }

  lemma TextWasEncoded(w: Words, next: Shape, s: string, d: Decoded)
    requires Exact(w) && |s| >= 8 && w.read(s).Some? && |s| - 8 >= w.read(s).value
    requires WasEncoded(w, next, s[8 + w.read(s).value..], d)
    ensures WasEncoded(w, AText(next), s, Decoded(Text(s[8..8 + w.read(s).value], d.parts), d.tail))
  {
    var n := w.read(s).value;
    WordWasAhead(w, s);
    assert s[8..] == s[8..8 + n] + s[8 + n..];
  }

  /** And nothing else decodes. */
  lemma {:induction false} DecodedWasEncoded(w: Words, shape: Shape, s: string)
    requires Exact(w) && Decode(w, shape, s).Some?
    ensures WasEncoded(w, shape, s, Decode(w, shape, s).value)
  {
    match shape
    case Done => assert s == "" + s;
    case ANumber(next) =>
      DecodedWasEncoded(w, next, s[8..]);
      NumberWasEncoded(w, next, s, Decode(w, next, s[8..]).value);
    case AText(next) =>
      var n := w.read(s).value;
      DecodedWasEncoded(w, next, s[8 + n..]);
      TextWasEncoded(w, next, s, Decode(w, next, s[8 + n..]).value);
  }

  /** Messages of one shape are equal only if their parts are. */
  lemma EncodeIsInjective(w: Words, p: Parts, q: Parts, s: string, t: string)
    requires Exact(w) && Fit(p) && Fit(q) && ShapeOf(p) == ShapeOf(q) && Encode(w, p) + s == Encode(w, q) + t
    ensures p == q && s == t
  {
    DecodeEncoded(w, p, s);
    DecodeEncoded(w, q, t);
  }

  /** Messages whose first text differs are different, whatever follows. */
  lemma DomainsSeparate(w: Words, a: string, s: string, b: string, t: string)
    requires Exact(w) && |a| < U64_LIMIT && |b| < U64_LIMIT && a != b
    ensures Encode(w, Text(a, End)) + s != Encode(w, Text(b, End)) + t
  {
    if Encode(w, Text(a, End)) + s == Encode(w, Text(b, End)) + t {
      EncodeIsInjective(w, Text(a, End), Text(b, End), s, t);
    }
  }

  // ---------------------------------------------------------------------------------------------
  // Messages of texts alone
  // ---------------------------------------------------------------------------------------------

  /** The texts from the `i`-th on. */
  function TextsFrom(texts: seq<string>, i: nat): Parts
    requires i <= |texts|
    decreases |texts| - i
  {
    if i == |texts| then End else Text(texts[i], TextsFrom(texts, i + 1))
  }

  predicate TextsFit(texts: seq<string>) { forall i :: 0 <= i < |texts| ==> |texts[i]| < U64_LIMIT }

  lemma SplitFirst(w: Words, text: string, p: Parts)
    ensures Encode(w, Text(text, p)) == Encode(w, Text(text, End)) + Encode(w, p)
  {
    assert text + Encode(w, End) == text;
    assert w.write(|text|) + (text + Encode(w, p)) == w.write(|text|) + text + Encode(w, p);
  }

  lemma {:induction false} EqualFrom(w: Words, a: seq<string>, b: seq<string>, i: nat)
    requires Exact(w) && TextsFit(a) && TextsFit(b) && i <= |a| && i <= |b| && a[..i] == b[..i]
    requires Encode(w, TextsFrom(a, i)) == Encode(w, TextsFrom(b, i))
    ensures a == b
    decreases |a| - i
  {
    if i < |a| && i < |b| {
      SplitFirst(w, a[i], TextsFrom(a, i + 1));
      SplitFirst(w, b[i], TextsFrom(b, i + 1));
      EncodeIsInjective(
        w, Text(a[i], End), Text(b[i], End), Encode(w, TextsFrom(a, i + 1)), Encode(w, TextsFrom(b, i + 1)));
      assert a[..i + 1] == a[..i] + [a[i]] && b[..i + 1] == b[..i] + [b[i]];
      EqualFrom(w, a, b, i + 1);
    } else {
      assert i == |a| == |b| ==> a[..i] == a && b[..i] == b;
    }
  }

  /** A message of length-prefixed texts determines them, without any count of them. */
  lemma TextsAreDetermined(w: Words, a: seq<string>, b: seq<string>)
    requires Exact(w) && TextsFit(a) && TextsFit(b)
    ensures Encode(w, TextsFrom(a, 0)) == Encode(w, TextsFrom(b, 0)) <==> a == b
  {
    if Encode(w, TextsFrom(a, 0)) == Encode(w, TextsFrom(b, 0)) {
      EqualFrom(w, a, b, 0);
    }
  }
}
