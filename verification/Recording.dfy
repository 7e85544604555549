/** What a recording `plan admit` writes: the digest and the mode of each row it admitted, one after the other in
    memory (internal/admit/admit.go: recordResults). */
module Recording {
  import opened Text
  import opened Section
  import opened Record
  import opened RecordLaws

  datatype Pin = Pin(id: string, digest: string)

  const HOST := "host"
  /** One row: its digest, then the mode it was taken in. A host recording into a ledger without a Mode column
      stands as it is, because an empty cell there means the host. */
  function RecordPin(doc: string, pin: Pin, mode: string): Result {
    match RecordDigest(doc, pin.id, pin.digest)
    case Refused(why) => Refused(why)
    case Ok(updated) =>
      match RecordMode(updated, pin.id, mode)
      case Ok(withMode) => Ok(withMode)
      case Refused(why) => if mode == HOST && why == NoColumn then Ok(updated) else Refused(why)
  }

  /** A ledger without the column can be recorded in by a host run alone, which leaves it without; a sandbox run is
      refused, and so is a row whose digest cannot be recorded. */
  lemma WithoutModeColumn(doc: string, pin: Pin, mode: string)
    requires RecordDigest(doc, pin.id, pin.digest).Ok? && RecordMode(RecordDigest(doc, pin.id, pin.digest).doc, pin.id, mode) == Refused(NoColumn)
    ensures RecordPin(doc, pin, mode) == if mode == "host" then RecordDigest(doc, pin.id, pin.digest) else Refused(NoColumn)
  {
    hide RecordDigest, RecordMode;
  }

  function RecordAll(doc: string, pins: seq<Pin>, mode: string): Result {
    if pins == [] then Ok(doc)
    else
      match RecordAll(doc, pins[..|pins| - 1], mode)
      case Refused(why) => Refused(why)
      case Ok(updated) => RecordPin(updated, pins[|pins| - 1], mode)
  }

  lemma {:induction false} RefusedStays(doc: string, pins: seq<Pin>, mode: string, n: nat)
    requires n <= |pins| && RecordAll(doc, pins[..n], mode).Refused?
    ensures RecordAll(doc, pins, mode) == RecordAll(doc, pins[..n], mode)
    decreases |pins|
  {
    hide RecordPin;
    if n < |pins| {
      var less := pins[..|pins| - 1];
      assert less[..n] == pins[..n];
      RefusedStays(doc, less, mode, n);
    } else {
      assert pins[..n] == pins;
    }
  }

  /** The loop of `recordResults`: the document is rewritten row by row, and a row that cannot be recorded aborts
      the whole write. */
  method RecordResults(raw: string, pins: seq<Pin>, mode: string) returns (r: Result)
    ensures r == RecordAll(raw, pins, mode)
  {
    hide RecordDigest, RecordMode;
    var doc := raw;
    for n := 0 to |pins|
      invariant RecordAll(raw, pins[..n], mode) == Ok(doc)
    {
      assert pins[..n + 1][..n] == pins[..n];
      var updated := RecordDigest(doc, pins[n].id, pins[n].digest);
      if updated.Refused? {
        RefusedStays(raw, pins, mode, n + 1);
        return updated;
      }
      var withMode := RecordMode(updated.doc, pins[n].id, mode);
      if withMode.Refused? {
        if mode != HOST || withMode.why != NoColumn {
          RefusedStays(raw, pins, mode, n + 1);
          return withMode;
        }
        doc := updated.doc;
      } else {
        doc := withMode.doc;
      }
    }
    assert pins[..|pins|] == pins;
    return Ok(doc);
  }

  // ---------------------------------------------------------------- sections a recording does not name

  lemma PinElsewhere(doc: string, pin: Pin, mode: string, other: string)
    requires RecordPin(doc, pin, mode).Ok? && !FoldEq(LEDGER, other)
    ensures ScanSection(Lines(RecordPin(doc, pin, mode).doc), other) == ScanSection(Lines(doc), other)
  {
    hide RecordCell, Lines, ScanSection, FoldEq, Recordable, IsDigest, IsMode;
    DigestRecordable(pin.digest);
    RecordElsewhere(doc, pin.id, "digest", pin.digest, other);
    var updated := RecordDigest(doc, pin.id, pin.digest).doc;
    if RecordMode(updated, pin.id, mode).Ok? {
      ModeRecordable(mode);
      RecordElsewhere(updated, pin.id, "mode", mode, other);
    }
  }

  lemma {:induction false} RecordedElsewhere(doc: string, pins: seq<Pin>, mode: string, other: string)
    requires RecordAll(doc, pins, mode).Ok? && !FoldEq(LEDGER, other)
    ensures ScanSection(Lines(RecordAll(doc, pins, mode).doc), other) == ScanSection(Lines(doc), other)
  {
    hide RecordPin, Lines, ScanSection, FoldEq;
    if pins != [] {
      var less := pins[..|pins| - 1];
      RecordedElsewhere(doc, less, mode, other);
      PinElsewhere(RecordAll(doc, less, mode).doc, pins[|pins| - 1], mode, other);
    }
  }
}
