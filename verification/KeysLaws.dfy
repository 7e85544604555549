/** Which streams decode alike however they are cut. The go-between is the decoding that never lets an ESC be the
    third byte of a sequence: it is what reading byte by byte gives. */
module KeysLaws {
  import opened Keys

  /** An ESC directly follows ESC [ or ESC O. */
  predicate Interrupts(s: seq<Byte>, i: nat) {
    i + 2 < |s| && s[i] == ESC && Opens(s[i + 1]) && s[i + 2] == ESC
  }

  function Eager(p: seq<Byte>): seq<Key>
    decreases |p|
  {
    if p == [] then []
    else if p[0] != ESC then [PlainKey(p[0])] + Eager(p[1..])
    else if Interrupts(p, 0) then [Unknown] + Eager(p[2..])
    else [DecodeEscape(p).0] + Eager(p[DecodeEscape(p).1..])
  }

  /** The batch decoding, one token at a time. */
  lemma BatchToken(s: seq<Byte>, n: nat)
    requires s != [] && n == if s[0] == ESC then DecodeEscape(s).1 else 1
    ensures n <= |s| && Batch(s) == [if s[0] == ESC then DecodeEscape(s).0 else PlainKey(s[0])] + Batch(s[n..])
  {
    hide DecodeEscape, PlainKey;
  }

  /** The eager token at the start of a stream: its key and its bytes. */
  function EagerFirst(s: seq<Byte>): (Key, nat)
    requires s != []
  {
    if s[0] != ESC then (PlainKey(s[0]), 1) else if Interrupts(s, 0) then (Unknown, 2) else DecodeEscape(s)
  }

  lemma EagerToken(s: seq<Byte>)
    requires s != []
    ensures 1 <= EagerFirst(s).1 <= |s| && Eager(s) == [EagerFirst(s).0] + Eager(s[EagerFirst(s).1..])
  {
    hide DecodeEscape, PlainKey;
  }

  /** Of two pairs and then an ESC or the end, one token takes three bytes and the next one; eagerly, each is a pair. */
  lemma TwoPairs(s: seq<Byte>)
    requires |s| >= 4 && s[0] == ESC && Opens(s[1]) && s[2] == ESC && Opens(s[3]) && (|s| == 4 || s[4] == ESC)
    ensures Batch(s) == [Unknown, Unknown] + Batch(s[4..])
    ensures Eager(s) == [Unknown, Unknown] + Eager(s[4..])
  {
    hide Batch, Eager;
    BatchToken(s, 3);
    assert s[3..][1..] == s[4..] && s[3..][0] == s[3];
    BatchToken(s[3..], 1);
    EagerPair(s);
    assert s[2..][2..] == s[4..];
    EagerPair(s[2..]);
    TwoKeys(Unknown, Unknown, Batch(s[4..]));
    TwoKeys(Unknown, Unknown, Eager(s[4..]));
  }

  lemma TwoKeys(k: Key, l: Key, rest: seq<Key>)
    ensures [k] + ([l] + rest) == [k, l] + rest
  {}

  lemma EagerPair(a: seq<Byte>)
    requires |a| >= 2 && a[0] == ESC && Opens(a[1]) && (|a| == 2 || a[2] == ESC)
    ensures Eager(a) == [Unknown] + Eager(a[2..])
  {}

  /** A run of pairs ESC b to the end of the stream, or to an incomplete sequence that ends it. */
  predicate Pairs(e: seq<Byte>) {
    || e == [] || e == [ESC]
    || (|e| == 3 && e[0] == ESC && e[1] == BRACKET && (e[2] == FIVE || e[2] == SIX))
    || (|e| >= 2 && e[0] == ESC && Opens(e[1]) && Pairs(e[2..]))
  }

  /** The same, when the pairs that are taken two at a time leave nothing else over. */
  predicate EvenPairs(e: seq<Byte>) {
    || e == [] || e == [ESC] || (|e| == 2 && e[0] == ESC && Opens(e[1]))
    || (|e| == 3 && e[0] == ESC && e[1] == BRACKET && (e[2] == FIVE || e[2] == SIX))
    || (|e| >= 4 && e[0] == ESC && Opens(e[1]) && e[2] == ESC && Opens(e[3]) && EvenPairs(e[4..]))
  }

  /** Every interruption starts a run of pairs to the end. */
  ghost predicate Loose(s: seq<Byte>) {
    forall i | 0 <= i < |s| && Interrupts(s, i) :: Pairs(s[i..])
  }

  predicate FirstInterrupts(s: seq<Byte>, i: nat) {
    Interrupts(s, i) && forall j | 0 <= j < i :: !Interrupts(s, j)
  }

  /** The streams every cut of which decodes alike: from the first place where an ESC follows ESC [ or ESC O on,
      the stream is pairs to its end, but for a lone ESC after an even number of them, or a 5 or a 6 after an odd
      number of which the last is ESC [. */
  ghost predicate Good(s: seq<Byte>) {
    forall i | 0 <= i < |s| && FirstInterrupts(s, i) :: EvenPairs(s[i..])
  }

  // ---------------------------------------------------------------- tokens

  lemma ShiftInterrupts(s: seq<Byte>, n: nat, i: nat)
    requires n <= |s|
    ensures Interrupts(s[n..], i) <==> Interrupts(s, n + i)
  {}

  lemma LooseTail(s: seq<Byte>, n: nat)
    requires Loose(s) && n <= |s|
    ensures Loose(s[n..])
  {
    hide Pairs;
    forall i | 0 <= i < |s[n..]| && Interrupts(s[n..], i) ensures Pairs(s[n..][i..]) {
      ShiftInterrupts(s, n, i);
      assert s[n..][i..] == s[n + i..];
    }
  }

  /** The eager decoding breaks before every ESC. */
  lemma {:induction false} EagerBreaks(a: seq<Byte>, e: seq<Byte>)
    requires e == [] || e[0] == ESC
    ensures Eager(a + e) == Eager(a) + Eager(e)
    decreases |a|
  {
    var s := a + e;
    if a == [] {
      assert s == e;
    } else if e == [] {
      assert s == a;
    } else {
      assert s[0] == a[0];
      var n := if a[0] != ESC then 1 else if Interrupts(s, 0) then 2 else DecodeEscape(s).1;
      if a[0] == ESC {
        EscapeWithin(a, e);
      }
      assert s[n..] == a[n..] + e;
      EagerBreaks(a[n..], e);
    }
  }

  /** The sequence at the start of `a` is the same with an ESC after `a`. */
  lemma EscapeWithin(a: seq<Byte>, e: seq<Byte>)
    requires a != [] && a[0] == ESC && e != [] && e[0] == ESC
    ensures var s := a + e;
            Interrupts(s, 0) ==> |a| >= 2 && ((Interrupts(a, 0) && |a| > 2) || (|a| == 2 && DecodeEscape(a) == (Unknown, 2)))
    ensures var s := a + e; !Interrupts(s, 0) ==> !Interrupts(a, 0) && DecodeEscape(s) == DecodeEscape(a)
  {
    var s := a + e;
    assert s[|a|] == ESC;
    assert forall k | 0 <= k < |a| :: s[k] == a[k];
  }

  /** Pairs and nothing else. */
  predicate Pure(a: seq<Byte>) {
    a == [] || (|a| >= 2 && a[0] == ESC && Opens(a[1]) && Pure(a[2..]))
  }

  function Unknowns(n: nat): seq<Key> {
    if n == 0 then [] else [Unknown] + Unknowns(n - 1)
  }

  lemma {:induction false} PureBefore(a: seq<Byte>, e: seq<Byte>)
    requires Pairs(a + e) && e != [] && e[0] == ESC
    ensures Pure(a)
    decreases |a|
  {
    var s := a + e;
    if a != [] {
      assert s[0] == a[0] && s[|a|] == ESC;
      assert s[2..] == a[2..] + e;
      PureBefore(a[2..], e);
    }
  }

  /** Pairs decode to one unknown key each, eagerly or not, however many there are. */
  lemma {:induction false} PureKeys(a: seq<Byte>)
    requires Pure(a)
    ensures Batch(a) == Eager(a) == Unknowns(|a| / 2)
    decreases |a|
  {
    if a != [] {
      if |a| == 2 {
        assert a[2..] == [];
      } else {
        assert Pure(a[2..]) && a[2..][0] == a[2] && a[2..][1] == a[3] && a[2..][2..] == a[4..];
        assert |a| > 4 ==> a[4..][0] == a[4];
        PureKeys(a[4..]);
        TwoPairs(a);
        TwoKeys(Unknown, Unknown, Unknowns(|a[4..]| / 2));
      }
    }
  }

  // ---------------------------------------------------------------- loose streams decode eagerly under every cut

  ghost predicate Uninterrupted(s: seq<Byte>) {
    forall i | 0 <= i < |s| :: !Interrupts(s, i)
  }

  lemma {:induction false} UninterruptedKeys(a: seq<Byte>)
    requires Uninterrupted(a)
    ensures Batch(a) == Eager(a)
    decreases |a|
  {
    hide DecodeEscape;
    if a != [] {
      var n := if a[0] == ESC then DecodeEscape(a).1 else 1;
      forall i | 0 <= i < |a[n..]| ensures !Interrupts(a[n..], i) {
        ShiftInterrupts(a, n, i);
      }
      UninterruptedKeys(a[n..]);
      assert !Interrupts(a, 0);
    }
  }

  /** What a loose stream holds before one of its ESCs decodes as it does eagerly. */
  lemma {:induction false} BeforeEsc(a: seq<Byte>, e: seq<Byte>)
    requires Loose(a + e) && e != [] && e[0] == ESC
    ensures Batch(a) == Eager(a)
    decreases |a|
  {
    hide DecodeEscape, Loose, Pairs;
    var s := a + e;
    if a != [] {
      assert s[0] == a[0];
      if Interrupts(s, 0) {
        assert Pairs(s) by { LooseAt(s, 0); assert s[0..] == s; }
        PureBefore(a, e);
        PureKeys(a);
      } else {
        if a[0] == ESC {
          EscapeWithin(a, e);
        }
        var n := if a[0] == ESC then DecodeEscape(a).1 else 1;
        LooseTail(s, n);
        assert s[n..] == a[n..] + e;
        BeforeEsc(a[n..], e);
      }
    }
  }

  lemma LooseAt(s: seq<Byte>, i: nat)
    requires Loose(s) && i < |s| && Interrupts(s, i)
    ensures Pairs(s[i..])
  {}

  lemma LastEscIs(p: seq<Byte>, i: int)
    requires -1 <= i < |p| && (i >= 0 ==> p[i] == ESC) && forall j | i < j < |p| :: p[j] != ESC
    ensures LastEsc(p) == i
  {}

  /** Cutting the front off moves what is held, and cannot make it hold more. */
  lemma HoldTail(a: seq<Byte>, n: nat)
    requires n <= |a| && HoldAt(a) == |a|
    ensures HoldAt(a[n..]) == |a[n..]|
  {
    var i, t := LastEsc(a), a[n..];
    LastEscIs(t, if i >= n then i - n else -1);
    if i >= n {
      assert t[i - n..] == a[i..];
    }
  }

  /** A prefix of a run of pairs ends in an incomplete sequence. */
  lemma {:induction false} PrefixHeld(x: seq<Byte>, y: seq<Byte>)
    requires Pairs(x + y) && x != []
    ensures HoldAt(x) < |x|
    decreases |x|
  {
    var s := x + y;
    assert s[0] == x[0] == ESC;
    if |x| > 1 {
      assert s[1] == x[1];
      if |x| == 2 || (|x| == 3 && x[2] != ESC) {
        assert |x| == 3 ==> x[2] == s[2] && s[2..][0] == s[2];
        LastEscIs(x, 0);
        assert x[0..] == x;
      } else {
        assert s[2..] == x[2..] + y;
        PrefixHeld(x[2..], y);
        var i := LastEsc(x[2..]);
        LastEscIs(x, i + 2);
        assert x[i + 2..] == x[2..][i..];
      }
    } else {
      LastEscIs(x, 0);
      assert x[0..] == x;
    }
  }

  /** When nothing is held back, the eager decoding breaks there too. */
  lemma {:induction false} EagerWhole(a: seq<Byte>, u: seq<Byte>)
    requires HoldAt(a) == |a|
    ensures Eager(a + u) == Eager(a) + Eager(u)
    decreases |a|
  {
    hide HoldAt, DecodeEscape, LastEsc, Incomplete, Eager, EagerFirst;
    var s := a + u;
    if a == [] {
      assert s == u;
      NoEager(a);
    } else {
      GrownToken(a, u);
      EagerToken(a);
      EagerToken(s);
      var n := EagerFirst(a).1;
      HoldTail(a, n);
      EagerWhole(a[n..], u);
      assert s[n..] == a[n..] + u;
    }
  }

  lemma NoEager(a: seq<Byte>)
    requires |a| == 0
    ensures Eager(a) == []
  {}

  lemma GrownToken(a: seq<Byte>, u: seq<Byte>)
    requires a != [] && HoldAt(a) == |a|
    ensures EagerFirst(a + u) == EagerFirst(a)
  {
    hide HoldAt, DecodeEscape;
    assert (a + u)[0] == a[0];
    if a[0] == ESC {
      Grown(a, u);
    }
  }

  lemma Grown(a: seq<Byte>, u: seq<Byte>)
    requires a != [] && a[0] == ESC && HoldAt(a) == |a|
    ensures Interrupts(a + u, 0) == Interrupts(a, 0)
    ensures !Interrupts(a, 0) ==> DecodeEscape(a + u) == DecodeEscape(a)
  {
    var s := a + u;
    assert forall k | 0 <= k < |a| :: s[k] == a[k];
    if |a| <= 2 || (|a| == 3 && a[2] != ESC) {
      if |a| < 2 || a[1] != ESC {
        LastEscIs(a, 0);
        assert a[0..] == a;
      }
    }
  }

  /** What a decoder can hold between two chunks. */
  predicate HeldForm(d: seq<Byte>) {
    d == [] || (d[0] == ESC && Incomplete(d) && forall k | 1 <= k < |d| :: d[k] != ESC)
  }

  lemma HeldKeys(d: seq<Byte>)
    requires HeldForm(d)
    ensures Batch(d) == Eager(d)
  {
    assert Uninterrupted(d);
    UninterruptedKeys(d);
  }

  lemma HoldForm(buf: seq<Byte>)
    ensures HeldForm(buf[HoldAt(buf)..])
  {
    var j, i := HoldAt(buf), LastEsc(buf);
    if j < |buf| {
      forall k | 1 <= k < |buf[j..]| ensures buf[j..][k] != ESC {
        assert buf[j..][k] == buf[j + k];
      }
    }
  }

  /** However a loose stream is cut, its keys are the eager ones. */
  lemma {:induction false} LooseStream(d: seq<Byte>, chunks: seq<seq<Byte>>)
    requires HeldForm(d) && Loose(d + Concat(chunks))
    ensures StreamFrom(d, chunks) == Eager(d + Concat(chunks))
    decreases |chunks|
  {
    hide Loose, HoldAt, HeldForm, Eager, Batch;
    if chunks == [] {
      assert d + Concat(chunks) == d;
      HeldKeys(d);
    } else {
      var rest, buf := Concat(chunks[1..]), d + chunks[0];
      assert d + Concat(chunks) == buf + rest;
      LooseChunk(buf, rest);
      var j := HoldAt(buf);
      HoldForm(buf);
      LooseTail(buf + rest, j);
      assert (buf + rest)[j..] == buf[j..] + rest;
      LooseStream(buf[j..], chunks[1..]);
    }
  }

  lemma LooseChunk(buf: seq<Byte>, rest: seq<Byte>)
    requires Loose(buf + rest)
    ensures Eager(buf + rest) == Batch(buf[..HoldAt(buf)]) + Eager(buf[HoldAt(buf)..] + rest)
  {
    hide Eager, Batch, Pairs;
    var j := HoldAt(buf);
    var a, e := buf[..j], buf[j..] + rest;
    if j < |buf| {
      assert buf + rest == a + e;
      BeforeEsc(a, e);
      EagerBreaks(a, e);
    } else {
      assert a == buf && e == rest;
      forall i | 0 <= i < |buf| ensures !Interrupts(buf, i) {
        if Interrupts(buf, i) {
          assert Interrupts(buf + rest, i);
          assert (buf + rest)[i..] == buf[i..] + rest;
          HoldTail(buf, i);
          PrefixHeld(buf[i..], rest);
        }
      }
      UninterruptedKeys(buf);
      EagerWhole(buf, rest);
    }
  }
}
