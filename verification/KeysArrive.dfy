/** What a terminal sends is what the menu gets, however the reads cut it. */
module KeysArrive {
  import opened Keys
  import opened KeysLaws
  import opened KeysExact

  /** A key as a terminal sends it: arrows in either cursor mode, Enter as either line end, and for a key the menu
      does not know a byte that is neither a key nor part of a sequence. */
  datatype Sent = Sent(key: Key, other: bool)

  function Bytes(s: Sent): seq<Byte> {
    match s.key
    case Up => [27, if s.other then 79 else 91, 65]
    case Down => [27, if s.other then 79 else 91, 66]
    case PgUp => [27, 91, 53, 126]
    case PgDn => [27, 91, 54, 126]
    case Enter => [if s.other then 10 else 13]
    case Escape => [27]
    case Space => [32]
    case Quit => [113]
    case CtrlC => [3]
    case Unknown => [if s.other then 48 else 120]
  }

  function AllBytes(sent: seq<Sent>): seq<Byte> {
    if sent == [] then [] else Bytes(sent[0]) + AllBytes(sent[1..])
  }

  function KeysOf(sent: seq<Sent>): (r: seq<Key>)
    ensures |r| == |sent| && forall i | 0 <= i < |sent| :: r[i] == sent[i].key
  {
    if sent == [] then [] else [sent[0].key] + KeysOf(sent[1..])
  }

  /** Every stream is read token by token: a carriage return or line feed, a space, a q and a control-C are keys; an ESC is
      Escape unless a bracket or an O follows, which start the sequences of four keys; and anything else is unknown. */
  lemma TokenIs(p: seq<Byte>)
    requires p != []
    ensures var (k, n) :=
              if p[0] == 13 || p[0] == 10 then (Enter, 1)
              else if p[0] == 32 then (Space, 1)
              else if p[0] == 113 then (Quit, 1)
              else if p[0] == 3 then (CtrlC, 1)
              else if p[0] != 27 then (Unknown, 1)
              else if |p| == 1 || (p[1] != 91 && p[1] != 79) then (Escape, 1)
              else if |p| == 2 then (Unknown, 2)
              else if p[2] == 65 then (Up, 3)
              else if p[2] == 66 then (Down, 3)
              else if |p| > 3 && p[1] == 91 && p[2] == 53 && p[3] == 126 then (PgUp, 4)
              else if |p| > 3 && p[1] == 91 && p[2] == 54 && p[3] == 126 then (PgDn, 4)
              else (Unknown, 3);
            Batch(p) == [k] + Batch(p[n..])
  {
    assert Batch(p) == if p[0] == ESC then [DecodeEscape(p).0] + Batch(p[DecodeEscape(p).1..]) else [PlainKey(p[0])] + Batch(p[1..]);
  }

  /** No key starts with a byte that would continue a lone ESC. */
  lemma StartsFresh(sent: seq<Sent>)
    requires sent != []
    ensures AllBytes(sent) != [] && !Opens(AllBytes(sent)[0])
  {}

  lemma OneKeyRead(s: Sent, rest: seq<Byte>)
    requires rest == [] || !Opens(rest[0])
    ensures Batch(Bytes(s) + rest) == [s.key] + Batch(rest)
  {
    hide Batch;
    var t := Bytes(s) + rest;
    var n := |Bytes(s)|;
    assert t[n..] == rest && forall i | 0 <= i < n :: t[i] == Bytes(s)[i];
    assert n == if t[0] == ESC then DecodeEscape(t).1 else 1;
    BatchToken(t, n);
  }

  lemma {:induction false} KeysRead(sent: seq<Sent>)
    ensures Batch(AllBytes(sent)) == KeysOf(sent)
  {
    hide Batch, Bytes;
    if sent == [] {
      NoKeys([]);
    } else {
      KeysRead(sent[1..]);
      if |sent| > 1 {
        StartsFresh(sent[1..]);
      }
      OneKeyRead(sent[0], AllBytes(sent[1..]));
    }
  }

  lemma {:induction false} NeverInterrupted(sent: seq<Sent>)
    ensures Uninterrupted(AllBytes(sent))
  {
    hide Bytes;
    if sent != [] {
      NeverInterrupted(sent[1..]);
      if |sent| > 1 {
        StartsFresh(sent[1..]);
      }
      OneUninterrupted(sent[0], AllBytes(sent[1..]));
    }
  }

  lemma OneUninterrupted(s: Sent, rest: seq<Byte>)
    requires Uninterrupted(rest) && (rest == [] || !Opens(rest[0]))
    ensures Uninterrupted(Bytes(s) + rest)
  {
    var t, n := Bytes(s) + rest, |Bytes(s)|;
    assert forall i | 0 <= i < n :: t[i] == Bytes(s)[i];
    assert forall i | n <= i < |t| :: t[i] == rest[i - n];
    forall i | 0 <= i < |t| ensures !Interrupts(t, i) {
      if i >= n {
        assert !Interrupts(rest, i - n);
      }
    }
  }

  /** Every sequence of keys, in whatever form the terminal sends each and however the reads cut the bytes, arrives as
      that sequence. */
  lemma KeysArrive(sent: seq<Sent>, chunks: seq<seq<Byte>>)
    requires Concat(chunks) == AllBytes(sent)
    ensures Stream(chunks) == KeysOf(sent)
  {
    hide Batch, Bytes;
    NeverInterrupted(sent);
    StreamingIsBatch(AllBytes(sent), chunks);
    KeysRead(sent);
  }
}
