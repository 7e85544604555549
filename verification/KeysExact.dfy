/** Exactly the good streams decode alike under every cut. */
module KeysExact {
  import opened Keys
  import opened KeysLaws

  // ---------------------------------------------------------------- counting keys

  function Escapes(ks: seq<Key>): nat {
    if ks == [] then 0 else (if ks[0] == Escape then 1 else 0) + Escapes(ks[1..])
  }

  lemma {:induction false} EscapesConcat(a: seq<Key>, b: seq<Key>)
    ensures Escapes(a + b) == Escapes(a) + Escapes(b)
  {
    if a == [] {
      assert a + b == b;
    } else {
      EscapesConcat(a[1..], b);
      assert (a + b)[1..] == a[1..] + b;
    }
  }

  /** More Escape keys, or as many and fewer keys: not the same keys. */
  predicate Apart(x: seq<Key>, y: seq<Key>) {
    Escapes(x) > Escapes(y) || (Escapes(x) == Escapes(y) && |x| < |y|)
  }

  lemma ApartConcat(a: seq<Key>, b: seq<Key>, x: seq<Key>, y: seq<Key>)
    requires x == y || Apart(x, y)
    requires Escapes(a) > Escapes(b) || (Escapes(a) == Escapes(b) && |a| < |b|)
    ensures Apart(a + x, b + y)
  {
    EscapesConcat(a, x);
    EscapesConcat(b, y);
  }

  lemma ApartAfter(a: seq<Key>, x: seq<Key>, y: seq<Key>)
    requires x == y || Apart(x, y)
    ensures a + x == a + y || Apart(a + x, a + y)
  {
    EscapesConcat(a, x);
    EscapesConcat(a, y);
  }

  /** The lone bytes after an ESC that was taken as a third byte: `r` is read with that ESC and without it. The two
      readings differ unless `r` is empty of a second pair. */
  predicate Strays(r: seq<Byte>) {
    r == [] || !Opens(r[0]) || (|r| >= 2 && r[1] != ESC)
  }

  lemma OneKey(k: Key)
    ensures Escapes([k]) == if k == Escape then 1 else 0
  {}

  lemma PlainKeys(k: Key, l: Key, m: Key)
    requires k != Escape && l != Escape && m != Escape
    ensures Escapes([k]) == 0 && Escapes([k, l]) == 0 && Escapes([k, l, m]) == 0
  {
    OneKey(k);
    OneKey(l);
    OneKey(m);
    EscapesConcat([k], [l]);
    EscapesConcat([k] + [l], [m]);
    assert [k] + [l] == [k, l] && [k, l] + [m] == [k, l, m];
  }

  lemma StrayKeys(r: seq<Byte>)
    requires Strays(r) && forall n: nat | n <= |r| :: EagerOrApart(r[n..])
    ensures Apart(Eager([ESC] + r), Batch(r))
  {
    hide Apart, EagerOrApart, Eager, Batch;
    assert r[0..] == r;
    assert EagerOrApart(r[0..]);
    if r == [] || !Opens(r[0]) {
      ApartEsc(r);
    } else {
      var n := StrayToken(r);
      assert EagerOrApart(r[n..]);
      StrayBatch(r, n);
      ApartStray(EagerFirst([ESC] + r).0, r, n);
    }
  }

  /** With the ESC before them, two or three of the bytes are one key, and it is not Escape. */
  lemma StrayToken(r: seq<Byte>) returns (n: nat)
    requires |r| >= 2 && Opens(r[0]) && r[1] != ESC
    ensures n == 2 || (n == 3 && |r| >= 3 && r[2] == TILDE)
    ensures var k := EagerFirst([ESC] + r).0; k != Escape && Eager([ESC] + r) == [k] + Eager(r[n..])
  {
    hide Eager;
    var s := [ESC] + r;
    assert s[1] == r[0] && s[2] == r[1] && (|r| > 2 ==> s[3] == r[2]);
    EagerToken(s);
    n := DecodeEscape(s).1 - 1;
    assert s[n + 1..] == r[n..];
  }

  lemma ApartEsc(r: seq<Byte>)
    requires (r == [] || !Opens(r[0])) && EagerOrApart(r)
    ensures Apart(Eager([ESC] + r), Batch(r))
  {
    var s := [ESC] + r;
    assert s[1..] == r;
    assert Eager(s) == [Escape] + Eager(r);
    EscapesConcat([Escape], Eager(r));
    OneKey(Escape);
  }

  /** Without the ESC, the two or three bytes after it are as many keys, none of them Escape. */
  lemma StrayBatch(r: seq<Byte>, n: nat)
    requires |r| >= 2 && Opens(r[0]) && r[1] != ESC && (n == 2 || (n == 3 && |r| >= 3 && r[2] == TILDE))
    ensures n == 2 ==> Batch(r) == [PlainKey(r[0]), PlainKey(r[1])] + Batch(r[n..])
    ensures n == 3 ==> Batch(r) == [PlainKey(r[0]), PlainKey(r[1]), PlainKey(r[2])] + Batch(r[n..])
  {
    hide DecodeEscape;
    BatchPlain(r);
    BatchPlain(r[1..]);
    assert r[1..][1..] == r[2..] && r[1..][0] == r[1];
    if n == 3 {
      BatchPlain(r[2..]);
      assert r[2..][1..] == r[3..] && r[2..][0] == r[2];
    }
  }

  lemma BatchPlain(r: seq<Byte>)
    requires r != [] && r[0] != ESC
    ensures Batch(r) == [PlainKey(r[0])] + Batch(r[1..])
  {
    hide DecodeEscape;
  }

  lemma ApartStray(k: Key, r: seq<Byte>, n: nat)
    requires k != Escape && |r| >= 2 && (n == 2 || (n == 3 && |r| >= 3)) && EagerOrApart(r[n..])
    requires n == 2 ==> Batch(r) == [PlainKey(r[0]), PlainKey(r[1])] + Batch(r[n..])
    requires n == 3 ==> Batch(r) == [PlainKey(r[0]), PlainKey(r[1]), PlainKey(r[2])] + Batch(r[n..])
    ensures Apart([k] + Eager(r[n..]), Batch(r))
  {
    hide Apart, Batch, Eager, PlainKey;
    NeverEscape(r[0]);
    NeverEscape(r[1]);
    if n == 2 {
      PlainKeys(k, PlainKey(r[0]), PlainKey(r[1]));
      PlainKeys(PlainKey(r[0]), PlainKey(r[1]), k);
      ApartConcat([k], [PlainKey(r[0]), PlainKey(r[1])], Eager(r[n..]), Batch(r[n..]));
    } else {
      NeverEscape(r[2]);
      PlainKeys(k, k, k);
      PlainKeys(PlainKey(r[0]), PlainKey(r[1]), PlainKey(r[2]));
      ApartConcat([k], [PlainKey(r[0]), PlainKey(r[1]), PlainKey(r[2])], Eager(r[n..]), Batch(r[n..]));
    }
  }

  lemma NeverEscape(b: Byte)
    ensures PlainKey(b) != Escape
  {}

  predicate EagerOrApart(s: seq<Byte>) {
    Eager(s) == Batch(s) || Apart(Eager(s), Batch(s))
  }

  /** Eager and batch decoding differ only ever in one direction. */
  lemma {:induction false} AllEagerOrApart(s: seq<Byte>)
    ensures EagerOrApart(s)
    decreases |s|
  {
    hide Apart, DecodeEscape;
    if s != [] {
      if !Interrupts(s, 0) {
        var n := if s[0] == ESC then DecodeEscape(s).1 else 1;
        var k := if s[0] == ESC then DecodeEscape(s).0 else PlainKey(s[0]);
        AllEagerOrApart(s[n..]);
        ApartAfter([k], Eager(s[n..]), Batch(s[n..]));
      } else {
        Interrupted(s);
      }
    }
  }

  lemma {:induction false} Interrupted(s: seq<Byte>)
    requires Interrupts(s, 0)
    ensures EagerOrApart(s)
    decreases |s|, 0
  {
    hide Apart;
    var r := s[3..];
    assert s[2..] == [ESC] + r;
    assert Batch(s) == [Unknown] + Batch(r) && Eager(s) == [Unknown] + Eager(s[2..]);
    if Strays(r) {
      forall n: nat | n <= |r| ensures EagerOrApart(r[n..]) {
        AllEagerOrApart(r[n..]);
      }
      StrayKeys(r);
      ApartAfter([Unknown], Eager(s[2..]), Batch(r));
    } else {
      AllEagerOrApart(s[4..]);
      TwoPairs(s);
      ApartAfter([Unknown, Unknown], Eager(s[4..]), Batch(s[4..]));
    }
  }

  // ---------------------------------------------------------------- loose streams

  lemma NotApart(x: seq<Key>)
    ensures !Apart(x, x)
  {}

  /** A run of pairs decodes alike both ways if and only if its pairs can be taken two at a time. */
  lemma {:induction false} PairsEven(e: seq<Byte>)
    requires Pairs(e)
    ensures Batch(e) == Eager(e) <==> EvenPairs(e)
    decreases |e|
  {
    hide Batch, Eager, DecodeEscape;
    if |e| >= 4 && e[2] == ESC && Opens(e[3]) && (|e| == 4 || e[4] == ESC) {
      assert e[2..][2..] == e[4..];
      PairsEven(e[4..]);
      TwoPairs(e);
      var x, y := Batch(e[4..]), Eager(e[4..]);
      assert [Unknown, Unknown] + x == [Unknown] + ([Unknown] + x) && [Unknown, Unknown] + y == [Unknown] + ([Unknown] + y);
      SameTail(Unknown, [Unknown] + x, [Unknown] + y);
      SameTail(Unknown, x, y);
    } else if |e| >= 3 && e[2] == ESC {
      assert Pairs(e[2..]);
      OddEnd(e);
    } else if e != [] {
      OneSequence(e);
    } else {
      NoKeys(e);
      NoEager(e);
    }
  }

  lemma AtMostThree(e: seq<Byte>)
    requires Pairs(e) && !(|e| >= 3 && e[2] == ESC)
    ensures |e| <= 3
  {}

  lemma OneSequence(e: seq<Byte>)
    requires e != [] && Pairs(e) && !(|e| >= 3 && e[2] == ESC)
    ensures EvenPairs(e) && Batch(e) == Eager(e) == [DecodeEscape(e).0]
  {
    hide Batch, Eager;
    AtMostThree(e);
    assert DecodeEscape(e).1 == |e| && !Interrupts(e, 0);
    assert e[|e|..] == [];
    BatchToken(e, |e|);
    EagerToken(e);
    NoKeys(e[|e|..]);
    NoEager(e[|e|..]);
  }

  /** An odd end: the last ESC is taken as a third byte by the one and starts a sequence for the other. */
  lemma OddEnd(e: seq<Byte>)
    requires |e| >= 3 && e[0] == ESC && Opens(e[1]) && e[2] == ESC && Pairs(e[2..])
    requires !(|e| >= 4 && Opens(e[3]) && (|e| == 4 || e[4] == ESC))
    ensures !EvenPairs(e) && Batch(e) != Eager(e)
  {
    hide Apart;
    var r := e[3..];
    assert e[2..] == [ESC] + r;
    assert Batch(e) == [Unknown] + Batch(r) && Eager(e) == [Unknown] + Eager(e[2..]);
    forall n: nat | n <= |r| ensures EagerOrApart(r[n..]) {
      AllEagerOrApart(r[n..]);
    }
    assert |e| > 3 ==> e[2..][1] == e[3];
    assert |e| > 4 ==> e[2..][2] == e[4];
    StrayKeys(r);
    NotApart(Batch(r));
    assert |e| > 4 ==> e[4..][0] == e[4];
  }

  lemma GoodToken(s: seq<Byte>, n: nat)
    requires s != [] && !Interrupts(s, 0) && n == if s[0] == ESC then DecodeEscape(s).1 else 1
    ensures Good(s) <==> Good(s[n..])
  {
    hide EvenPairs;
    forall i | 0 < i < n ensures !Interrupts(s, i) {
      assert s[0] == ESC && s[i] != ESC;
    }
    forall i | 0 <= i < |s[n..]| ensures FirstInterrupts(s[n..], i) <==> FirstInterrupts(s, n + i) {
      ShiftInterrupts(s, n, i);
      forall j | 0 <= j < i ensures Interrupts(s[n..], j) <==> Interrupts(s, n + j) {
        ShiftInterrupts(s, n, j);
      }
      if FirstInterrupts(s[n..], i) {
        forall j | 0 <= j < n + i ensures !Interrupts(s, j) {
          if j >= n {
            ShiftInterrupts(s, n, j - n);
          }
        }
      }
    }
    forall i | 0 <= i < |s[n..]| ensures s[n..][i..] == s[n + i..] {}
    if Good(s) {
      forall i | 0 <= i < |s[n..]| && FirstInterrupts(s[n..], i) ensures EvenPairs(s[n..][i..]) {
        assert FirstInterrupts(s, n + i);
      }
    }
    if Good(s[n..]) {
      forall i | 0 <= i < |s| && FirstInterrupts(s, i) ensures EvenPairs(s[i..]) {
        assert i >= n;
        assert FirstInterrupts(s[n..], i - n);
        assert s[n..][i - n..] == s[i..];
      }
    }
  }

  lemma {:induction false} LooseIff(s: seq<Byte>)
    requires Loose(s)
    ensures Batch(s) == Eager(s) <==> Good(s)
    decreases |s|
  {
    hide Good, Loose, Pairs, EvenPairs, DecodeEscape;
    if s == [] {
      GoodNothing();
    } else if Interrupts(s, 0) {
      assert s[0..] == s;
      LooseAt(s, 0);
      PairsEven(s);
      GoodAtStart(s);
    } else {
      var n := if s[0] == ESC then DecodeEscape(s).1 else 1;
      LooseTail(s, n);
      LooseIff(s[n..]);
      GoodToken(s, n);
      var k := if s[0] == ESC then DecodeEscape(s).0 else PlainKey(s[0]);
      SameTail(k, Batch(s[n..]), Eager(s[n..]));
    }
  }

  lemma SameTail(k: Key, x: seq<Key>, y: seq<Key>)
    ensures [k] + x == [k] + y <==> x == y
  {
    if [k] + x == [k] + y {
      assert x == ([k] + x)[1..] && y == ([k] + y)[1..];
    }
  }

  lemma GoodNothing()
    ensures Good([])
  {}

  lemma GoodAtStart(s: seq<Byte>)
    requires Interrupts(s, 0)
    ensures Good(s) <==> EvenPairs(s)
  {
    hide EvenPairs;
    assert s[0..] == s;
    assert FirstInterrupts(s, 0);
  }

  lemma {:induction false} PairsSuffix(e: seq<Byte>, o: nat)
    requires Pairs(e) && o < |e| && e[o] == ESC
    ensures Pairs(e[o..])
    decreases |e|
  {
    if o == 0 {
      assert e[0..] == e;
    } else {
      assert |e| >= 2 && o != 1;
      assert e[2..][o - 2] == e[o] && e[2..][o - 2..] == e[o..];
      PairsSuffix(e[2..], o - 2);
    }
  }

  lemma {:induction false} EvenIsPairs(e: seq<Byte>)
    requires EvenPairs(e)
    ensures Pairs(e)
    decreases |e|
  {
    if |e| >= 4 {
      EvenIsPairs(e[4..]);
      assert e[2..][2..] == e[4..];
      assert e[2..][0] == e[2] && e[2..][1] == e[3];
    } else if |e| == 2 {
      assert e[2..] == [];
    }
  }

  lemma {:induction false} FirstOf(s: seq<Byte>, i: nat) returns (f: nat)
    requires i < |s| && Interrupts(s, i)
    ensures f <= i && FirstInterrupts(s, f)
  {
    if j :| 0 <= j < i && Interrupts(s, j) {
      f := FirstOf(s, j);
    } else {
      f := i;
    }
  }

  lemma GoodIsLoose(s: seq<Byte>)
    requires Good(s)
    ensures Loose(s)
  {
    hide Pairs, EvenPairs;
    forall i | 0 <= i < |s| && Interrupts(s, i) ensures Pairs(s[i..]) {
      var f := FirstOf(s, i);
      EvenIsPairs(s[f..]);
      assert s[f..][i - f..] == s[i..];
      PairsSuffix(s[f..], i - f);
    }
  }

  // ---------------------------------------------------------------- streams that are not loose

  /** The last interruption that does not start a run of pairs. */
  lemma LastStray(s: seq<Byte>, i: nat) returns (l: nat)
    requires i < |s| && Interrupts(s, i) && !Pairs(s[i..])
    ensures l < |s| && Interrupts(s, l) && !Pairs(s[l..]) && Loose(s[l + 1..])
    decreases |s| - i
  {
    hide Pairs;
    if j :| i < j < |s| && Interrupts(s, j) && !Pairs(s[j..]) {
      l := LastStray(s, j);
    } else {
      l := i;
      var t := s[l + 1..];
      forall k | 0 <= k < |t| && Interrupts(t, k) ensures Pairs(t[k..]) {
        ShiftInterrupts(s, l + 1, k);
        var j := l + 1 + k;
        assert t[k..] == s[j..];
        assert Interrupts(s, j);
      }
    }
  }

  lemma PairStep(x: seq<Byte>)
    requires |x| >= 2 && x[0] == ESC && Opens(x[1])
    ensures Pairs(x[2..]) ==> Pairs(x)
    ensures |x| == 2 ==> Pairs(x)
  {
    if |x| == 2 {
      assert x[2..] == [];
    }
  }

  /** What follows the two pairs' bytes is stray, and nothing of it is held with them. */
  lemma StrayShape(x: seq<Byte>)
    requires Interrupts(x, 0) && !Pairs(x) && Loose(x[1..])
    ensures HoldAt(x) >= 3 && Strays(x[3..HoldAt(x)])
  {
    var y := x[2..];
    PairStep(x);
    assert y[0] == ESC && y != [ESC];
    assert y[1] == x[3];
    if Opens(x[3]) {
      PairStep(y);
      assert |y| > 2 && y[2] == x[4];
      StrayNext(x);
      assert !Incomplete(y);
    }
    var i := LastEsc(x);
    assert i >= 2;
    assert x[2..] == y;
  }

  lemma StrayNext(x: seq<Byte>)
    requires |x| > 4 && Interrupts(x, 0) && Opens(x[3]) && !Pairs(x[2..]) && Loose(x[1..])
    ensures x[4] != ESC
  {
    hide Pairs, Loose;
    ShiftInterrupts(x, 1, 1);
    assert x[1..][1..] == x[2..];
    LooseOrNot(x[1..], 1);
  }

  lemma LooseOrNot(s: seq<Byte>, i: nat)
    requires Loose(s) && i < |s|
    ensures Interrupts(s, i) ==> Pairs(s[i..])
  {}

  /** Two ways to cut a stream at a stray interruption: with it in one read, or between its two ESCs. */
  lemma TwoCuts(s: seq<Byte>, l: nat)
    requires l < |s| && Interrupts(s, l) && !Pairs(s[l..]) && Loose(s[l + 1..])
    ensures Stream([s[..l + 1], s[l + 1..]]) != Stream([s[..l + 1], s[l + 1..l + 3], s[l + 3..]])
    ensures Concat([s[..l + 1], s[l + 1..]]) == s && Concat([s[..l + 1], s[l + 1..l + 3], s[l + 3..]]) == s
  {
    hide HoldAt, Pairs, Loose, Batch, Eager, LastEsc, Incomplete;
    var x := s[l..];
    assert x[1..] == s[l + 1..] && x[1..3] == s[l + 1..l + 3] && x[3..] == s[l + 3..];
    FirstChunk(s, l);
    var k := Batch(s[..l]);
    var c, d := [s[..l + 1], s[l + 1..]], [s[..l + 1], s[l + 1..l + 3], s[l + 3..]];
    assert c[1..] == [x[1..]] && d[1..] == [x[1..3], x[3..]];
    assert [] + s[..l + 1] == s[..l + 1];
    assert Stream(c) == k + StreamFrom([ESC], [x[1..]]) + [];
    assert Stream(d) == k + StreamFrom([ESC], [x[1..3], x[3..]]) + [];
    CutsDiffer(x);
    SameEnds(k, StreamFrom([ESC], [x[1..]]), StreamFrom([ESC], [x[1..3], x[3..]]), []);
    ConcatTwo(s[..l + 1], s[l + 1..]);
    ConcatThree(s[..l + 1], s[l + 1..l + 3], s[l + 3..]);
  }

  lemma ConcatTwo(a: seq<Byte>, b: seq<Byte>)
    ensures Concat([a, b]) == a + b
  {
    assert [a, b][1..] == [b] && [b][1..] == [];
    assert Concat([b]) == b + [] == b;
  }

  lemma ConcatThree(a: seq<Byte>, b: seq<Byte>, c: seq<Byte>)
    ensures Concat([a, b, c]) == a + b + c
  {
    assert [a, b, c][1..] == [b, c];
    ConcatTwo(b, c);
  }

  lemma FirstChunk(s: seq<Byte>, l: nat)
    requires l < |s| && s[l] == ESC
    ensures var buf := s[..l + 1]; HoldAt(buf) == l && buf[..l] == s[..l] && buf[l..] == [ESC]
  {
    LastEscIs(s[..l + 1], l);
  }

  lemma CutsDiffer(x: seq<Byte>)
    requires Interrupts(x, 0) && !Pairs(x) && Loose(x[1..])
    ensures StreamFrom([ESC], [x[1..]]) != StreamFrom([ESC], [x[1..3], x[3..]])
  {
    hide Pairs, Batch, Eager, HoldAt, Loose, StreamFrom, Strays;
    StrayShape(x);
    OneCut(x);
    OtherCut(x);
    var r, tail := x[3..HoldAt(x)], x[HoldAt(x)..];
    StrayEnds(x, r, tail);
    SameEnds([Unknown], Eager([ESC] + r), Batch(r), Batch(tail));
    assert [Unknown] + Eager(x[2..]) == [Unknown] + Eager([ESC] + r) + Batch(tail);
  }

  lemma StrayEnds(x: seq<Byte>, r: seq<Byte>, tail: seq<Byte>)
    requires |x| >= 3 && x[2] == ESC && 3 <= HoldAt(x) && r == x[3..HoldAt(x)] && tail == x[HoldAt(x)..] && Strays(r)
    ensures Eager(x[2..]) == Eager([ESC] + r) + Batch(tail) && Eager([ESC] + r) != Batch(r)
  {
    hide Batch, Eager, HoldAt, Apart, Strays, EagerOrApart;
    HoldForm(x);
    HeldKeys(tail);
    forall n: nat | n <= |r| ensures EagerOrApart(r[n..]) {
      AllEagerOrApart(r[n..]);
    }
    StrayKeys(r);
    NotApart(Batch(r));
    assert x[2..] == ([ESC] + r) + tail;
    EagerBreaks([ESC] + r, tail);
  }

  lemma SameEnds(a: seq<Key>, p: seq<Key>, q: seq<Key>, z: seq<Key>)
    requires p != q
    ensures a + p + z != a + q + z
  {
    if a + p + z == a + q + z {
      Cancel(a, p, q, z);
    }
  }

  lemma Cancel(a: seq<Key>, p: seq<Key>, q: seq<Key>, z: seq<Key>)
    requires a + p + z == a + q + z
    ensures p == q
  {
    var n := |a|;
    assert |p| == |q|;
    assert p == (a + p + z)[n..n + |p|] && q == (a + q + z)[n..n + |q|];
  }

  lemma OneCut(x: seq<Byte>)
    requires Interrupts(x, 0) && HoldAt(x) >= 3
    ensures StreamFrom([ESC], [x[1..]]) == [Unknown] + Batch(x[3..HoldAt(x)]) + Batch(x[HoldAt(x)..])
  {
    hide HoldAt;
    var j := HoldAt(x);
    assert [ESC] + x[1..] == x && [x[1..]][1..] == [];
    assert x[..j][3..] == x[3..j];
    assert Batch(x[..j]) == [Unknown] + Batch(x[3..j]);
  }

  lemma OtherCut(x: seq<Byte>)
    requires Interrupts(x, 0) && Loose(x[1..])
    ensures StreamFrom([ESC], [x[1..3], x[3..]]) == [Unknown] + Eager(x[2..])
  {
    hide Loose, Pairs;
    var buf := [ESC] + x[1..3];
    assert buf == x[..3];
    LastEscIs(buf, 2);
    assert buf[2..] == [ESC] && buf[..2] == [ESC, x[1]];
    assert [x[1..3], x[3..]][1..] == [x[3..]];
    assert Concat([x[3..]]) == x[3..] by { assert [x[3..]][1..] == []; }
    assert [ESC] + x[3..] == x[2..];
    LooseTail(x[1..], 1);
    assert x[1..][1..] == x[2..];
    LooseStream([ESC], [x[3..]]);
    assert Batch([ESC, x[1]]) == [Unknown] by { assert [ESC, x[1]][2..] == []; }
  }

  // ---------------------------------------------------------------- the exact condition

  /** Every way of cutting the stream into reads, and one flush at the end, gives the keys of the whole stream. */
  ghost predicate CutsAgree(s: seq<Byte>) {
    forall chunks: seq<seq<Byte>> | Concat(chunks) == s :: Stream(chunks) == Batch(s)
  }

  lemma StreamingIffGood(s: seq<Byte>)
    ensures CutsAgree(s) <==> Good(s)
  {
    hide Good, Loose, Pairs, Batch, Eager, HoldAt;
    if Good(s) {
      GoodIsLoose(s);
      LooseIff(s);
      forall chunks: seq<seq<Byte>> | Concat(chunks) == s ensures Stream(chunks) == Batch(s) {
        assert [] + Concat(chunks) == s;
        LooseStream([], chunks);
      }
    }
    if CutsAgree(s) {
      if Loose(s) {
        assert Concat([s]) == s by { assert [s][1..] == []; }
        assert [] + s == s;
        LooseStream([], [s]);
        LooseIff(s);
      } else {
        NotLoose(s);
      }
    }
  }

  lemma NotLoose(s: seq<Byte>)
    requires !Loose(s)
    ensures !CutsAgree(s)
  {
    hide Pairs, Batch, Eager, HoldAt;
    var i :| 0 <= i < |s| && Interrupts(s, i) && !Pairs(s[i..]);
    var l := LastStray(s, i);
    TwoCuts(s, l);
  }

  /** In particular, when no ESC directly follows ESC [ or ESC O. */
  lemma StreamingIsBatch(s: seq<Byte>, chunks: seq<seq<Byte>>)
    requires Uninterrupted(s) && Concat(chunks) == s
    ensures Stream(chunks) == Batch(s)
  {
    hide Batch;
    StreamingIffGood(s);
  }
}
