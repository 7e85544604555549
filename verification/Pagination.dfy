/** Keyset pagination of the corrected reference program (bench/cases/n05-keyset-pagination/fix/all/src/pagination.js).
    The order of strings is one total order, a parameter; a cursor is the text the program passes around. */
module Pagination {
  import opened Text

  datatype Row = Row(at: string, id: string, data: string)

  datatype Option<T> = None | Some(value: T)

  type Order = (string, string) -> bool

  /** A strict total order. */
  ghost predicate TotalOrder(lt: Order) {
    && (forall a :: !lt(a, a))
    && (forall a, b :: lt(a, b) || lt(b, a) || a == b)
    && (forall a, b, c :: lt(a, b) && lt(b, c) ==> lt(a, c))
  }

  /** Feed order: by time, then by id. */
  predicate Before(lt: Order, a: Row, b: Row) {
    lt(a.at, b.at) || (a.at == b.at && lt(a.id, b.id))
  }

  ghost predicate DistinctKeys(rows: seq<Row>) {
    forall i, j | 0 <= i < j < |rows| :: rows[i].at != rows[j].at || rows[i].id != rows[j].id
  }

  ghost predicate InOrder(lt: Order, rows: seq<Row>) {
    forall i, j | 0 <= i < j < |rows| :: Before(lt, rows[i], rows[j])
  }

  const SEPARATOR := '#'

  ghost predicate PlainTimes(rows: seq<Row>) {
    forall i | 0 <= i < |rows| :: '#' !in rows[i].at
  }

  // ---------------------------------------------------------------- sorting

  function Insert(lt: Order, x: Row, s: seq<Row>): (r: seq<Row>)
    ensures multiset(r) == multiset(s) + multiset{x}
  {
    if s == [] then [x]
    else if !Before(lt, s[0], x) then [x] + s
    else
      assert s == [s[0]] + s[1..];
      [s[0]] + Insert(lt, x, s[1..])
  }

  /** `inFeedOrder`. */
  function FeedOrder(lt: Order, rows: seq<Row>): (r: seq<Row>)
    ensures multiset(r) == multiset(rows)
  {
    if rows == [] then []
    else
      assert rows == [rows[0]] + rows[1..];
      Insert(lt, rows[0], FeedOrder(lt, rows[1..]))
  }

  predicate KeyIn(rows: seq<Row>, x: Row) {
    exists i | 0 <= i < |rows| :: rows[i].at == x.at && rows[i].id == x.id
  }

  lemma InBag(rows: seq<Row>, x: Row)
    requires x in multiset(rows)
    ensures exists i | 0 <= i < |rows| :: rows[i] == x
  {}

  lemma {:induction false} InsertInOrder(lt: Order, x: Row, s: seq<Row>)
    requires TotalOrder(lt) && InOrder(lt, s) && !KeyIn(s, x)
    ensures InOrder(lt, Insert(lt, x, s))
  {
    if s != [] {
      assert s[0].at != x.at || s[0].id != x.id;
      if Before(lt, s[0], x) {
        var t := Insert(lt, x, s[1..]);
        assert !KeyIn(s[1..], x) by {
          forall i | 0 <= i < |s[1..]| ensures !(s[1..][i].at == x.at && s[1..][i].id == x.id) {
            assert s[1..][i] == s[i + 1];
          }
        }
        InsertInOrder(lt, x, s[1..]);
        forall j | 0 <= j < |t| ensures Before(lt, s[0], t[j]) {
          assert t[j] in multiset(t);
          if t[j] != x {
            InBag(s[1..], t[j]);
          }
        }
      } else {
        forall j | 0 <= j < |s| ensures Before(lt, x, s[j]) {
          assert j == 0 || Before(lt, s[0], s[j]);
        }
      }
    }
  }

  /** Sorting rows of distinct keys puts them in strict feed order. */
  lemma {:induction false} FeedOrderSorts(lt: Order, rows: seq<Row>)
    requires TotalOrder(lt) && DistinctKeys(rows)
    ensures InOrder(lt, FeedOrder(lt, rows))
  {
    hide TotalOrder, Before;
    if rows != [] {
      var rest := FeedOrder(lt, rows[1..]);
      FeedOrderSorts(lt, rows[1..]);
      assert !KeyIn(rest, rows[0]) by {
        forall i | 0 <= i < |rest| ensures !(rest[i].at == rows[0].at && rest[i].id == rows[0].id) {
          assert rest[i] in multiset(rows[1..]);
          InBag(rows[1..], rest[i]);
          var j :| 0 <= j < |rows[1..]| && rows[1..][j] == rest[i];
          assert rows[j + 1] == rest[i];
        }
      }
      InsertInOrder(lt, rows[0], rest);
    }
  }

  // ---------------------------------------------------------------- cursors

  datatype Cursor = Cursor(at: string, id: Option<string>)

  /** Another row shares the time. */
  predicate Shared(last: Row, rows: seq<Row>) {
    exists i | 0 <= i < |rows| :: rows[i] != last && rows[i].at == last.at
  }

  /** `encodeCursor`. */
  function EncodeCursor(last: Row, rows: seq<Row>): string {
    if Shared(last, rows) then last.at + [SEPARATOR] + last.id else last.at
  }

  /** `decodeCursor`. */
  function DecodeCursor(after: string): Cursor {
    var i := Index(after, [SEPARATOR]);
    if i < 0 then Cursor(after, None) else Cursor(after[..i], Some(after[i + 1..]))
  }

  /** `isAfter`. */
  predicate IsAfter(lt: Order, row: Row, c: Cursor) {
    if row.at != c.at then lt(c.at, row.at) else c.id.Some? && lt(c.id.value, row.id)
  }

  function Filter(lt: Order, rows: seq<Row>, c: Cursor): seq<Row> {
    if rows == [] then []
    else (if IsAfter(lt, rows[0], c) then [rows[0]] else []) + Filter(lt, rows[1..], c)
  }

  function Remaining(lt: Order, ordered: seq<Row>, after: Option<string>): seq<Row> {
    if after.None? then ordered else Filter(lt, ordered, DecodeCursor(after.value))
  }

  datatype Page = Page(items: seq<Row>, cursor: Option<string>) | RangeError

  /** `page`. */
  function PageOf(lt: Order, rows: seq<Row>, after: Option<string>, limit: int): Page {
    if limit < 1 then RangeError
    else
      var ordered := FeedOrder(lt, rows);
      var remaining := Remaining(lt, ordered, after);
      if |remaining| <= limit then Page(remaining, None)
      else Page(remaining[..limit], Some(EncodeCursor(remaining[limit - 1], ordered)))
  }

  lemma DecodesBack(at: string, id: string)
    requires SEPARATOR !in at
    ensures DecodeCursor(at) == Cursor(at, None)
    ensures DecodeCursor(at + [SEPARATOR] + id) == Cursor(at, Some(id))
  {
    var s := at + [SEPARATOR] + id;
    assert s[|at|..|at| + 1] == [SEPARATOR];
    forall j: nat | j < |at| ensures !OccursAt(s, [SEPARATOR], j) && !OccursAt(at, [SEPARATOR], j) {
      assert s[j..j + 1] == [at[j]] && at[j..j + 1] == [at[j]];
    }
    IndexIs(s, [SEPARATOR], |at|);
    assert s[..|at|] == at && s[|at| + 1..] == id;
    forall j: nat ensures !OccursAt(at, [SEPARATOR], j) {}
  }

  lemma {:induction false} FilterIsTail(lt: Order, rows: seq<Row>, c: Cursor, n: nat)
    requires n <= |rows| && forall i | 0 <= i < |rows| :: IsAfter(lt, rows[i], c) <==> n <= i
    ensures Filter(lt, rows, c) == rows[n..]
  {
    hide IsAfter;
    if rows != [] {
      var m := if n == 0 then 0 else n - 1;
      forall i | 0 <= i < |rows[1..]| ensures IsAfter(lt, rows[1..][i], c) <==> m <= i {
        assert rows[1..][i] == rows[i + 1];
      }
      FilterIsTail(lt, rows[1..], c, m);
      assert rows[1..][m..] == rows[m + 1..];
      assert n == 0 ==> rows[n..] == [rows[0]] + rows[1..];
    }
  }

  /** The cursor of a row leaves exactly the rows after it, although it carries an id, behind its time and a hash, only
      when another row has that time. */
  lemma CursorLeaves(lt: Order, ordered: seq<Row>, q: nat)
    requires TotalOrder(lt) && InOrder(lt, ordered) && PlainTimes(ordered) && q < |ordered|
    ensures Remaining(lt, ordered, Some(EncodeCursor(ordered[q], ordered))) == ordered[q + 1..]
    ensures (exists i | 0 <= i < |ordered| && i != q :: ordered[i].at == ordered[q].at) ==>
              EncodeCursor(ordered[q], ordered) == ordered[q].at + "#" + ordered[q].id
    ensures (forall i | 0 <= i < |ordered| && i != q :: ordered[i].at != ordered[q].at) ==> EncodeCursor(ordered[q], ordered) == ordered[q].at
  {
    OthersDiffer(lt, ordered, q);
    var last := ordered[q];
    var c := DecodeCursor(EncodeCursor(last, ordered));
    DecodesBack(last.at, last.id);
    forall i | 0 <= i < |ordered| ensures IsAfter(lt, ordered[i], c) <==> q + 1 <= i {
      AfterIff(lt, ordered, q, i);
    }
    FilterIsTail(lt, ordered, c, q + 1);
  }

  lemma OthersDiffer(lt: Order, ordered: seq<Row>, q: nat)
    requires TotalOrder(lt) && InOrder(lt, ordered) && q < |ordered|
    ensures forall i | 0 <= i < |ordered| && i != q :: ordered[i] != ordered[q]
  {
    forall i | 0 <= i < |ordered| && i != q ensures ordered[i] != ordered[q] {
      assert if i < q then Before(lt, ordered[i], ordered[q]) else Before(lt, ordered[q], ordered[i]);
    }
  }

  lemma AfterIff(lt: Order, ordered: seq<Row>, q: nat, i: nat)
    requires TotalOrder(lt) && InOrder(lt, ordered) && q < |ordered| && i < |ordered|
    ensures var last := ordered[q];
            IsAfter(lt, ordered[i], Cursor(last.at, if Shared(last, ordered) then Some(last.id) else None)) <==> q < i
  {
    var last, row := ordered[q], ordered[i];
    if i < q {
      assert Before(lt, row, last);
    } else if q < i {
      assert Before(lt, last, row);
    }
    if row.at == last.at && i != q {
      assert row != last;
      assert Shared(last, ordered);
    }
  }

  // ---------------------------------------------------------------- every page

  /** One page: the next rows, and the cursor that leaves the rest. */
  lemma OnePage(lt: Order, rows: seq<Row>, ordered: seq<Row>, k: nat, after: Option<string>, limit: int)
    requires TotalOrder(lt) && InOrder(lt, ordered) && PlainTimes(ordered) && limit >= 1
    requires ordered == FeedOrder(lt, rows) && k <= |ordered| && Remaining(lt, ordered, after) == ordered[k..]
    ensures var p := PageOf(lt, rows, after, limit);
            p.Page? && k + |p.items| <= |ordered| && p.items == ordered[k..k + |p.items|] &&
            (p.cursor.None? ==> k + |p.items| == |ordered|) &&
            (p.cursor.Some? ==> |p.items| >= 1 && Remaining(lt, ordered, p.cursor) == ordered[k + |p.items|..])
  {
    hide TotalOrder, InOrder, Remaining, EncodeCursor, FeedOrder, PlainTimes;
    if |ordered| - k > limit {
      assert ordered[k..][..limit] == ordered[k..k + limit];
      CursorLeaves(lt, ordered, k + limit - 1);
    }
  }

  /** A page is refused without a limit of at least one row; else it has the next rows, as many as the limit allows, and
      a cursor exactly if rows are left. */
  lemma PageIs(lt: Order, rows: seq<Row>, k: nat, after: Option<string>, limit: int)
    requires TotalOrder(lt) && DistinctKeys(rows) && PlainTimes(rows) && k <= |rows|
    requires after == None ==> k == 0
    requires after.Some? ==> k > 0 && |FeedOrder(lt, rows)| == |rows| && after.value == EncodeCursor(FeedOrder(lt, rows)[k - 1], FeedOrder(lt, rows))
    ensures limit < 1 ==> PageOf(lt, rows, after, limit) == RangeError
    ensures limit >= 1 ==>
              var ordered, p := FeedOrder(lt, rows), PageOf(lt, rows, after, limit);
              var n := if k + limit <= |rows| then k + limit else |rows|;
              p.Page? && |ordered| == |rows| && p.items == ordered[k..n] && (p.cursor.Some? <==> k + limit < |rows|)
  {
    hide TotalOrder, InOrder, EncodeCursor, Remaining, FeedOrder, PlainTimes, DistinctKeys;
    var ordered := FeedOrder(lt, rows);
    FeedOrderSorts(lt, rows);
    TimesKept(lt, rows);
    assert |multiset(ordered)| == |multiset(rows)|;
    if after.None? {
      FromTheStart(lt, ordered);
    } else {
      CursorLeaves(lt, ordered, k - 1);
    }
    if limit >= 1 && |rows| - k > limit {
      assert ordered[k..][..limit] == ordered[k..k + limit];
    }
  }

  /** `collectAll`: it ends, and gives every row once, in feed order. */
  method CollectAll(lt: Order, rows: seq<Row>, limit: int) returns (out: seq<Row>)
    requires TotalOrder(lt) && DistinctKeys(rows) && PlainTimes(rows) && limit >= 1
    ensures out == FeedOrder(lt, rows)
    ensures InOrder(lt, out) && multiset(out) == multiset(rows)
  {
    hide TotalOrder, InOrder, EncodeCursor, Remaining, PageOf, FeedOrder;
    FeedOrderSorts(lt, rows);
    out := [];
    var after: Option<string> := None;
    ghost var ordered := FeedOrder(lt, rows);
    TimesKept(lt, rows);
    FromTheStart(lt, ordered);
    while true
      invariant |out| <= |ordered| && out == ordered[..|out|]
      invariant Remaining(lt, ordered, after) == ordered[|out|..]
      decreases |ordered| - |out|
    {
      OnePage(lt, rows, ordered, |out|, after, limit);
      var p := PageOf(lt, rows, after, limit);
      ghost var k, q := |out|, |out| + |p.items|;
      assert ordered[..q] == ordered[..k] + ordered[k..q];
      out := out + p.items;
      if p.cursor.None? {
        assert ordered[..|ordered|] == ordered;
        return;
      }
      after := p.cursor;
    }
  }

  lemma FromTheStart(lt: Order, ordered: seq<Row>)
    ensures Remaining(lt, ordered, None) == ordered[0..]
  {}

  lemma TimesKept(lt: Order, rows: seq<Row>)
    requires PlainTimes(rows)
    ensures PlainTimes(FeedOrder(lt, rows))
  {
    var ordered := FeedOrder(lt, rows);
    forall i | 0 <= i < |ordered| ensures '#' !in ordered[i].at {
      assert ordered[i] in multiset(rows);
      InBag(rows, ordered[i]);
    }
  }
}
