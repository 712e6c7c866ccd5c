/** A shift register over any state type that takes `width` steps for every byte it is fed: what follows from the
    laws of its step and of exclusive or alone, without looking at a single bit. */
module ShiftRegister {
  import opened Bytes

  datatype Register<!T(!new)> = Register(step: T -> T, xor: (T, T) -> T, load: byte -> T, width: nat) {

    function Steps(c: T, k: nat): T
      decreases k
    {
      if k == 0 then c else Steps(step(c), k - 1)
    }

    function Feed(c: T, b: byte): T { Steps(xor(c, load(b)), width) }

    function Fold(c: T, data: seq<byte>): T
      decreases data
    {
      if data == [] then c else Fold(Feed(c, data[0]), data[1..])
    }

    /** The step commutes with exclusive or. */
    ghost predicate Linear() {
      forall a, b {:trigger step(xor(a, b))} :: step(xor(a, b)) == xor(step(a), step(b))
    }

    ghost predicate Abelian() {
      && (forall a, b {:trigger xor(a, b)} :: xor(a, b) == xor(b, a))
      && (forall a, b, c {:trigger xor(xor(a, b), c)} :: xor(xor(a, b), c) == xor(a, xor(b, c)))
    }

    lemma Regroups(a: T, b: T, c: T, d: T)
      requires Abelian()
      ensures xor(xor(a, b), xor(c, d)) == xor(xor(a, c), xor(b, d))
    {
      assert xor(xor(a, b), c) == xor(a, xor(b, c)) == xor(a, xor(c, b)) == xor(xor(a, c), b);
      assert xor(xor(xor(a, b), c), d) == xor(xor(a, b), xor(c, d));
      assert xor(xor(xor(a, c), b), d) == xor(xor(a, c), xor(b, d));
    }

    /** Neither a step nor an exclusive or loses information. */
    ghost predicate Lossless() {
      && (forall a, b {:trigger step(a), step(b)} :: step(a) == step(b) ==> a == b)
      && (forall a, b, c {:trigger xor(a, c), xor(b, c)} :: xor(a, c) == xor(b, c) ==> a == b)
      && (forall a, b, c {:trigger xor(c, a), xor(c, b)} :: xor(c, a) == xor(c, b) ==> a == b)
    }

    lemma {:induction false} StepsLinear(a: T, b: T, k: nat)
      requires Linear()
      ensures Steps(xor(a, b), k) == xor(Steps(a, k), Steps(b, k))
      decreases k
    {
      if k > 0 {
        StepsLinear(step(a), step(b), k - 1);
      }
    }

    lemma {:induction false} StepsInjective(a: T, b: T, k: nat)
      requires Lossless() && Steps(a, k) == Steps(b, k)
      ensures a == b
      decreases k
    {
      if k > 0 {
        StepsInjective(step(a), step(b), k - 1);
      }
    }

    lemma {:induction false} StepsAdd(c: T, j: nat, k: nat)
      ensures Steps(c, j + k) == Steps(Steps(c, j), k)
      decreases j
    {
      if j > 0 {
        StepsAdd(step(c), j - 1, k);
      }
    }

    lemma {:induction false} FoldAppend(c: T, a: seq<byte>, b: seq<byte>)
      ensures Fold(c, a + b) == Fold(Fold(c, a), b)
      decreases a
    {
      if a == [] {
        assert a + b == b;
      } else {
        assert (a + b)[0] == a[0] && (a + b)[1..] == a[1..] + b;
        FoldAppend(Feed(c, a[0]), a[1..], b);
      }
    }

    /** Reading the same data cannot make two different states equal. */
    lemma {:induction false} FoldInjective(a: T, b: T, data: seq<byte>)
      requires Lossless() && Fold(a, data) == Fold(b, data)
      ensures a == b
      decreases data
    {
      if data != [] {
        FoldInjective(Feed(a, data[0]), Feed(b, data[0]), data[1..]);
        StepsInjective(xor(a, load(data[0])), xor(b, load(data[0])), width);
      }
    }

    /** Folding the exclusive or of two texts is the exclusive or of their folds. */
    lemma {:induction false} FoldLinear(s: T, t: T, a: seq<byte>, b: seq<byte>, both: seq<byte>)
      requires Linear() && Abelian() && |a| == |b| == |both|
      requires forall i :: 0 <= i < |a| ==> load(both[i]) == xor(load(a[i]), load(b[i]))
      ensures Fold(xor(s, t), both) == xor(Fold(s, a), Fold(t, b))
      decreases a
    {
      if a != [] {
        Regroups(s, t, load(a[0]), load(b[0]));
        StepsLinear(xor(s, load(a[0])), xor(t, load(b[0])), width);
        FoldLinear(Feed(s, a[0]), Feed(t, b[0]), a[1..], b[1..], both[1..]);
      }
    }

    /** `w` bytes as one state: the first one loaded, the others lifted one byte above it. */
    function Pack(w: seq<byte>, zero: T, lift: T -> T): T
      decreases w
    {
      if w == [] then zero else xor(load(w[0]), lift(Pack(w[1..], zero, lift)))
    }

    /** `width` steps bring a lifted state back, as long as it has room. */
    ghost predicate Lifts(zero: T, lift: T -> T, room: T -> bool) {
      && (forall c {:trigger lift(c)} :: room(c) ==> Steps(lift(c), width) == c)
      && (forall c {:trigger xor(c, zero)} :: xor(c, zero) == c)
      && (forall a, b, c {:trigger xor(xor(a, b), c)} :: xor(xor(a, b), c) == xor(a, xor(b, c)))
    }

    /** Steps taken while reading `w`. */
    function Turns(w: seq<byte>): nat
      decreases w
    {
      if w == [] then 0 else width + Turns(w[1..])
    }

    lemma {:induction false} SameLengthSameTurns(v: seq<byte>, w: seq<byte>)
      requires |v| == |w|
      ensures Turns(v) == Turns(w)
      decreases v
    {
      if v != [] {
        SameLengthSameTurns(v[1..], w[1..]);
      }
    }

    ghost predicate HasRoom(w: seq<byte>, zero: T, lift: T -> T, room: T -> bool) {
      w != [] ==> room(Pack(w[1..], zero, lift)) && HasRoom(w[1..], zero, lift, room)
    }

    /** Feeding one byte and then stepping on is stepping on from the byte and the rest together. */
    lemma OneMoreByte(c: T, b: byte, packed: T, turns: nat, zero: T, lift: T -> T, room: T -> bool)
      requires Linear() && Lifts(zero, lift, room) && room(packed)
      ensures Steps(xor(Feed(c, b), packed), turns) == Steps(xor(c, xor(load(b), lift(packed))), width + turns)
    {
      var all := xor(xor(c, load(b)), lift(packed));
      assert all == xor(c, xor(load(b), lift(packed)));
      StepsLinear(xor(c, load(b)), lift(packed), width);
      StepsAdd(all, width, turns);
    }

    /** Feeding a few bytes one by one is one exclusive or with all of them, then `width` steps a byte. */
    lemma {:induction false} FoldOfWindow(c: T, w: seq<byte>, zero: T, lift: T -> T, room: T -> bool)
      requires Linear() && Lifts(zero, lift, room) && HasRoom(w, zero, lift, room)
      ensures Fold(c, w) == Steps(xor(c, Pack(w, zero, lift)), Turns(w))
      decreases w
    {
      if w == [] {
        assert xor(c, zero) == c;
      } else {
        var b, rest := w[0], w[1..];
        var packed, turns := Pack(rest, zero, lift), Turns(rest);
        FoldOfWindow(Feed(c, b), rest, zero, lift, room);
        assert Fold(c, w) == Steps(xor(Feed(c, b), packed), turns);
        OneMoreByte(c, b, packed, turns, zero, lift, room);
        assert Pack(w, zero, lift) == xor(load(b), lift(packed)) && Turns(w) == width + turns;
      }
    }

    /** Eight single steps, spelled out. */
    lemma EightSteps(c8: T, c7: T, c6: T, c5: T, c4: T, c3: T, c2: T, c1: T, c0: T)
      requires width == 8
      requires step(c8) == c7 && step(c7) == c6 && step(c6) == c5 && step(c5) == c4
      requires step(c4) == c3 && step(c3) == c2 && step(c2) == c1 && step(c1) == c0
      ensures Steps(c8, width) == c0
    {
      assert Steps(c2, 2) == c0;
      assert Steps(c4, 4) == c0;
      assert Steps(c6, 6) == c0;
    }

    /** Feeding a byte splits into the steps of the low part and nothing but a shift of the rest. */
    lemma FeedSplits(c: T, b: byte, low: T, high: T, zero: T, lift: T -> T, room: T -> bool)
      requires Linear() && Lifts(zero, lift, room) && room(high)
      requires xor(c, load(b)) == xor(low, lift(high))
      ensures Feed(c, b) == xor(Steps(low, width), high)
    {
      StepsLinear(low, lift(high), width);
    }

    /** Data that differ only inside a window whose packed forms differ fold to different states. */
    lemma WindowShows(c: T, before: seq<byte>, v: seq<byte>, w: seq<byte>, after: seq<byte>,
                      zero: T, lift: T -> T, room: T -> bool)
      requires Linear() && Lossless() && Lifts(zero, lift, room)
      requires |v| == |w| && HasRoom(v, zero, lift, room) && HasRoom(w, zero, lift, room)
      requires Fold(c, before + v + after) == Fold(c, before + w + after)
      ensures Pack(v, zero, lift) == Pack(w, zero, lift)
    {
      var d := Fold(c, before);
      FoldAppend(c, before + v, after);
      FoldAppend(c, before + w, after);
      FoldAppend(c, before, v);
      FoldAppend(c, before, w);
      FoldInjective(Fold(d, v), Fold(d, w), after);
      SameLengthSameTurns(v, w);
      FoldOfWindow(d, v, zero, lift, room);
      FoldOfWindow(d, w, zero, lift, room);
      StepsInjective(xor(d, Pack(v, zero, lift)), xor(d, Pack(w, zero, lift)), Turns(v));
    }
  }
}
