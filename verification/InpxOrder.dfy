/** The dataset validators: of the declared archives, and of the order of the records. */
module InpxOrder {
  import opened Wrappers
  import opened InpxWriter
  import opened InpxLayout

  // ---------------------------------------------------------------- header

  /** `validateDatasetHeader` on the declared archives. */
  ghost predicate ValidHeader(metas: seq<Meta>) {
    && (forall i :: 0 <= i < |metas| ==> metas[i].id != "" && metas[i].ordinal == i)
    && (forall i, j :: 0 <= i < j < |metas| ==> metas[i].id != metas[j].id)
  }

  method ValidateArchives(metas: seq<Meta>) returns (ok: bool)
    ensures ok == ValidHeader(metas)
  {
    var seen: set<string> := {};
    var idx := 0;
    while idx < |metas|
      invariant idx <= |metas| && ValidHeader(metas[..idx])
      invariant forall id :: id in seen <==> exists i :: 0 <= i < idx && metas[i].id == id
    {
      if metas[idx].id == "" || metas[idx].id in seen || metas[idx].ordinal != idx { return false; }
      seen := seen + {metas[idx].id};
      idx := idx + 1;
    }
    assert metas[..idx] == metas;
    return true;
  }

  /** How the records are said to be ordered. */
  datatype Ordering = Ordering(mode: string, direction: string, source: string, archiveKey: string, entryKey: string)

  datatype Header = Header(schema: string, recordSchema: string, records: int, metas: seq<Meta>, ordering: Ordering)

  const BY_ENTRY := "archive_entry"
  const BY_BOOK := "database_book_id"

  /** `validateDatasetHeader`, with `validateDatasetOrdering`. */
  method ValidateHeader(h: Header) returns (ok: bool)
    ensures ok <==>
      && h.schema == "metabib.dataset/1" && h.recordSchema == "metabib.dataset_record/1" && h.records >= 0
      && ValidHeader(h.metas)
      && (h.ordering.mode == ""
          || (h.ordering.direction == "ascending"
              && ((h.ordering.mode == "archive_entry" && h.metas != []
                   && h.ordering.archiveKey == "ordinal" && h.ordering.entryKey == "index")
                  || (h.ordering.mode == "database_book_id" && h.ordering.source == "database"
                      && h.ordering.archiveKey == "" && h.ordering.entryKey == ""))))
  {
    if h.schema != "metabib.dataset/1" || h.recordSchema != "metabib.dataset_record/1" || h.records < 0 {
      return false;
    }
    ok := ValidateArchives(h.metas);
    if !ok || h.ordering.mode == "" { return; }
    if h.ordering.direction != "ascending" { return false; }
    if h.ordering.mode == BY_ENTRY {
      return h.metas != [] && h.ordering.archiveKey == "ordinal" && h.ordering.entryKey == "index";
    }
    if h.ordering.mode == BY_BOOK {
      return h.ordering.source == "database" && h.ordering.archiveKey == "" && h.ordering.entryKey == "";
    }
    return false;
  }

  // ---------------------------------------------------------------- order

  datatype Order = Order(ordinal: int, index: int)

  datatype OrderError = WrongKind | WrongSource | MissingIndex | Undeclared | OutOfOrder | Unsupported

  /** `archiveOrderLess`. */
  predicate Less(a: Order, b: Order) { a.ordinal < b.ordinal || (a.ordinal == b.ordinal && a.index < b.index) }

  function OrderOf<R>(metas: seq<Meta>, rec: Record<R>): Result<Order, OrderError> {
    if rec.kind != ARCHIVE_ENTRY then Err(WrongKind)
    else if rec.index.None? then Err(MissingIndex)
    else
      match Find(metas, rec.source)
      case None => Err(Undeclared)
      case Some(a) => Ok(Order(metas[a].ordinal, rec.index.value))
  }

  /** `validateArchiveEntry`. */
  function NextOrder<R>(metas: seq<Meta>, prev: Option<Order>, rec: Record<R>): Result<Order, OrderError> {
    match OrderOf(metas, rec)
    case Err(e) => Err(e)
    case Ok(current) => if prev.Some? && Less(current, prev.value) then Err(OutOfOrder) else Ok(current)
  }

  const DATABASE_BOOK := "database_book"

  function BookOf<R>(source: string, rec: Record<R>): Result<int, OrderError> {
    if rec.kind != DATABASE_BOOK then Err(WrongKind)
    else if rec.source != (if source == "" then "database" else source) then Err(WrongSource)
    else if rec.bookID.None? then Err(MissingIndex)
    else Ok(rec.bookID.value)
  }

  /** `validateDatabaseBookID`. */
  function NextBook<R>(source: string, prev: Option<int>, rec: Record<R>): Result<int, OrderError> {
    match BookOf(source, rec)
    case Err(e) => Err(e)
    case Ok(current) => if prev.Some? && current < prev.value then Err(OutOfOrder) else Ok(current)
  }

  /** What the validator remembers of the records before. */
  datatype Seen = Seen(archive: Option<Order>, book: Option<int>)

  function Next<R>(h: Header, seen: Seen, rec: Record<R>): Result<Seen, OrderError> {
    if h.ordering.mode == "" then Ok(seen)
    else if h.ordering.mode == BY_ENTRY then
      match NextOrder(h.metas, seen.archive, rec)
      case Err(e) => Err(e)
      case Ok(current) => Ok(seen.(archive := Some(current)))
    else if h.ordering.mode == BY_BOOK then
      match NextBook(h.ordering.source, seen.book, rec)
      case Err(e) => Err(e)
      case Ok(current) => Ok(seen.(book := Some(current)))
    else Err(Unsupported)
  }

  /** Every record is of a database book, and book ids do not descend. */
  ghost predicate BooksInOrder<R>(source: string, recs: seq<Record<R>>) {
    && (forall i :: 0 <= i < |recs| ==> BookOf(source, recs[i]).Ok?)
    && (forall i :: 0 < i < |recs| ==> BookOf(source, recs[i - 1]).value <= BookOf(source, recs[i]).value)
  }

  /** The records are in the order the header declares. */
  ghost predicate InDeclaredOrder<R>(h: Header, recs: seq<Record<R>>) {
    if h.ordering.mode == "" then true
    else if h.ordering.mode == BY_ENTRY then InOrder(h.metas, recs)
    else if h.ordering.mode == BY_BOOK then BooksInOrder(h.ordering.source, recs)
    else recs == []
  }

  class OrderValidator<R> {
    const header: Header
    var prevArchive: Option<Order>
    var prevBook: Option<int>

    constructor (header: Header)
      ensures this.header == header && Now() == Seen(None, None)
    {
      this.header, prevArchive, prevBook := header, None, None;
    }

    function Now(): Seen
      reads this
    {
      Seen(prevArchive, prevBook)
    }

    method ValidateArchiveEntry(rec: Record<R>) returns (r: Result<Order, OrderError>)
      modifies this`prevArchive
      ensures r == NextOrder(header.metas, old(prevArchive), rec)
      ensures prevArchive == if r.Ok? then Some(r.value) else old(prevArchive)
    {
      if rec.kind != ARCHIVE_ENTRY { return Err(WrongKind); }
      if rec.index.None? { return Err(MissingIndex); }
      var found := Find(header.metas, rec.source);
      if found.None? { return Err(Undeclared); }
      var current := Order(header.metas[found.value].ordinal, rec.index.value);
      if prevArchive.Some? && Less(current, prevArchive.value) { return Err(OutOfOrder); }
      prevArchive := Some(current);
      return Ok(current);
    }

    method ValidateDatabaseBookID(rec: Record<R>) returns (r: Result<int, OrderError>)
      modifies this`prevBook
      ensures r == NextBook(header.ordering.source, old(prevBook), rec)
      ensures prevBook == if r.Ok? then Some(r.value) else old(prevBook)
    {
      if rec.kind != DATABASE_BOOK { return Err(WrongKind); }
      var wantSource := if header.ordering.source == "" then "database" else header.ordering.source;
      if rec.source != wantSource { return Err(WrongSource); }
      if rec.bookID.None? { return Err(MissingIndex); }
      if prevBook.Some? && rec.bookID.value < prevBook.value { return Err(OutOfOrder); }
      prevBook := rec.bookID;
      return Ok(rec.bookID.value);
    }

    method Validate(rec: Record<R>) returns (r: Result<bool, OrderError>)
      modifies this
      ensures match Next(header, old(Now()), rec)
              case Ok(seen) => r.Ok? && Now() == seen
              case Err(e) => r == Err(e) && Now() == old(Now())
    {
      if header.ordering.mode == "" { return Ok(true); }
      if header.ordering.mode == BY_ENTRY {
        var entry := ValidateArchiveEntry(rec);
        return if entry.Ok? then Ok(true) else Err(entry.error);
      }
      if header.ordering.mode == BY_BOOK {
        var book := ValidateDatabaseBookID(rec);
        return if book.Ok? then Ok(true) else Err(book.error);
      }
      return Err(Unsupported);
    }

    /** The records in front of number i, read in the declared order, are what is remembered. */
    ghost predicate Remembers(recs: seq<Record<R>>, i: nat)
      reads this
      requires i <= |recs|
    {
      && InDeclaredOrder(header, recs[..i])
      && Now() == SeenOf(header, recs, i)
    }

    /** A stream is accepted exactly when its records are in the declared order. */
    method ValidateAll(recs: seq<Record<R>>) returns (ok: bool)
      requires Now() == Seen(None, None)
      modifies this
      ensures ok == InDeclaredOrder(header, recs)
    {
      var i := 0;
      while i < |recs|
        invariant i <= |recs| && Remembers(recs, i)
      {
        OneMoreInOrder(header, recs, i);
        var r := Validate(recs[i]);
        if r.Err? { return false; }
        i := i + 1;
      }
      assert recs[..i] == recs;
      return true;
    }
  }

  /** What is remembered after the first i records of a stream in order. */
  ghost function SeenOf<R>(h: Header, recs: seq<Record<R>>, i: nat): Seen
    requires i <= |recs| && InDeclaredOrder(h, recs[..i])
  {
    if i == 0 then Seen(None, None)
    else
      assert recs[..i][i - 1] == recs[i - 1];
      if h.ordering.mode == BY_ENTRY then Seen(Some(OrderOf(h.metas, recs[i - 1]).value), None)
      else if h.ordering.mode == BY_BOOK then Seen(None, Some(BookOf(h.ordering.source, recs[i - 1]).value))
      else Seen(None, None)
  }

  lemma {:induction false} BooksGrow<R>(source: string, recs: seq<Record<R>>, i: nat)
    requires i < |recs| && BooksInOrder(source, recs[..i])
    ensures var prev := if i == 0 then None else Some(BookOf(source, recs[i - 1]).value);
            BooksInOrder(source, recs[..i + 1]) <==> NextBook(source, prev, recs[i]).Ok?
  {
    var p := recs[..i + 1];
    assert forall k :: 0 <= k < i ==> p[k] == recs[..i][k];
    assert i > 0 ==> recs[..i][i - 1] == recs[i - 1];
  }

  lemma {:induction false} EntriesGrow<R>(metas: seq<Meta>, recs: seq<Record<R>>, i: nat)
    requires i < |recs| && InOrder(metas, recs[..i])
    ensures var prev := if i == 0 then None else Some(OrderOf(metas, recs[i - 1]).value);
            InOrder(metas, recs[..i + 1]) <==> NextOrder(metas, prev, recs[i]).Ok?
  {
    var p := recs[..i + 1];
    assert forall k :: 0 <= k < i ==> p[k] == recs[..i][k];
    assert i > 0 ==> recs[..i][i - 1] == recs[i - 1];
  }

  lemma {:induction false} PrefixInOrder<R>(h: Header, recs: seq<Record<R>>, i: nat)
    requires i <= |recs| && InDeclaredOrder(h, recs)
    ensures InDeclaredOrder(h, recs[..i])
  {
    assert forall k :: 0 <= k < i ==> recs[..i][k] == recs[k];
  }

  /** One more record is accepted exactly when the records up to it are in order. */
  lemma {:induction false} OneMoreInOrder<R>(h: Header, recs: seq<Record<R>>, i: nat)
    requires i < |recs| && InDeclaredOrder(h, recs[..i])
    ensures InDeclaredOrder(h, recs[..i + 1]) <==> Next(h, SeenOf(h, recs, i), recs[i]).Ok?
    ensures InDeclaredOrder(h, recs[..i + 1]) ==> Next(h, SeenOf(h, recs, i), recs[i]).value == SeenOf(h, recs, i + 1)
    ensures InDeclaredOrder(h, recs) ==> InDeclaredOrder(h, recs[..i + 1])
  {
    if h.ordering.mode == BY_ENTRY { EntriesGrow(h.metas, recs, i); }
    if h.ordering.mode == BY_BOOK { BooksGrow(h.ordering.source, recs, i); }
    if InDeclaredOrder(h, recs) { PrefixInOrder(h, recs, i + 1); }
  }

  /** Every record has a place, and none is before its predecessor's. */
  ghost predicate InOrder<R>(metas: seq<Meta>, recs: seq<Record<R>>) {
    && (forall i :: 0 <= i < |recs| ==> OrderOf(metas, recs[i]).Ok?)
    && (forall i :: 0 < i < |recs| ==> !Less(OrderOf(metas, recs[i]).value, OrderOf(metas, recs[i - 1]).value))
  }

  /** Order is transitive along the stream. */
  lemma {:induction false} Ordered<R>(metas: seq<Meta>, recs: seq<Record<R>>, i: nat, j: nat)
    requires InOrder(metas, recs) && i < j < |recs|
    ensures !Less(OrderOf(metas, recs[j]).value, OrderOf(metas, recs[i]).value)
    decreases j
  {
    if i < j - 1 { Ordered(metas, recs, i, j - 1); }
  }

  // ---------------------------------------------------------------- which streams are accepted

  predicate Named(metas: seq<Meta>, a: nat, id: string) { a < |metas| && metas[a].id == id }

  ghost predicate SaysWhere<R>(metas: seq<Meta>, rec: Record<R>) {
    rec.kind == "archive_entry" && rec.index.Some? && exists a: nat :: Named(metas, a, rec.source)
  }

  /** A record is not in an earlier archive than another, nor in the same one before it. */
  ghost predicate NotAhead<R>(metas: seq<Meta>, prev: Record<R>, rec: Record<R>)
    requires SaysWhere(metas, prev) && SaysWhere(metas, rec)
  {
    forall a: nat, b: nat :: Named(metas, a, prev.source) && Named(metas, b, rec.source) ==>
      a < b || (a == b && prev.index.value <= rec.index.value)
  }

  /** Each record of an archive entry says where it is, and does not come before its predecessor. */
  ghost predicate EntriesAscend<R>(metas: seq<Meta>, recs: seq<Record<R>>) {
    && (forall i :: 0 <= i < |recs| ==> SaysWhere(metas, recs[i]))
    && (forall i :: 0 < i < |recs| ==> NotAhead(metas, recs[i - 1], recs[i]))
  }

  lemma {:induction false} FoundIsNamed(metas: seq<Meta>, id: string)
    requires ValidHeader(metas)
    ensures Find(metas, id).None? <==> forall a: nat :: !Named(metas, a, id)
    ensures forall a: nat :: Named(metas, a, id) ==> Find(metas, id) == Some(a)
  {
    if Find(metas, id).Some? { assert Named(metas, Find(metas, id).value, id); }
  }

  lemma {:induction false} OrderIs<R>(metas: seq<Meta>, rec: Record<R>)
    requires ValidHeader(metas)
    ensures OrderOf(metas, rec).Ok? <==> SaysWhere(metas, rec)
    ensures SaysWhere(metas, rec) ==>
      Named(metas, OrderOf(metas, rec).value.ordinal, rec.source) && OrderOf(metas, rec).value.index == rec.index.value
  {
    FoundIsNamed(metas, rec.source);
  }

  lemma {:induction false} LessIs<R>(metas: seq<Meta>, prev: Record<R>, rec: Record<R>)
    requires ValidHeader(metas) && SaysWhere(metas, prev) && SaysWhere(metas, rec)
    ensures OrderOf(metas, prev).Ok? && OrderOf(metas, rec).Ok?
    ensures !Less(OrderOf(metas, rec).value, OrderOf(metas, prev).value) <==> NotAhead(metas, prev, rec)
  {
    FoundIsNamed(metas, prev.source);
    FoundIsNamed(metas, rec.source);
    var a: nat :| Named(metas, a, prev.source);
    var b: nat :| Named(metas, b, rec.source);
  }

  /** With accepted archives, a stream is accepted as ordered by archive entry if and only if it is. */
  lemma {:induction false} EntryOrderIs<R>(metas: seq<Meta>, recs: seq<Record<R>>)
    requires ValidHeader(metas)
    ensures InOrder(metas, recs) <==> EntriesAscend(metas, recs)
  {
    hide OrderOf, SaysWhere, NotAhead, Less;
    forall i | 0 <= i < |recs| ensures OrderOf(metas, recs[i]).Ok? <==> SaysWhere(metas, recs[i]) {
      OrderIs(metas, recs[i]);
    }
    if forall i :: 0 <= i < |recs| ==> SaysWhere(metas, recs[i]) {
      forall i | 0 < i < |recs|
        ensures !Less(OrderOf(metas, recs[i]).value, OrderOf(metas, recs[i - 1]).value)
           <==> NotAhead(metas, recs[i - 1], recs[i])
      {
        LessIs(metas, recs[i - 1], recs[i]);
      }
    }
  }

  /** A record of a book of the declared source, by default of the database. */
  predicate OfBook<R>(source: string, rec: Record<R>) {
    && rec.kind == "database_book" && rec.bookID.Some?
    && (if source == "" then rec.source == "database" else rec.source == source)
  }

  /** A stream is accepted as ordered by book if and only if every record is of a book, and the ids do not descend. */
  lemma {:induction false} BookOrderIs<R>(source: string, recs: seq<Record<R>>)
    ensures BooksInOrder(source, recs)
       <==> && (forall i :: 0 <= i < |recs| ==> OfBook(source, recs[i]))
            && (forall i :: 0 < i < |recs| ==> recs[i - 1].bookID.value <= recs[i].bookID.value)
  {
    forall i | 0 <= i < |recs|
      ensures BookOf(source, recs[i]).Ok? <==> OfBook(source, recs[i])
      ensures OfBook(source, recs[i]) ==> BookOf(source, recs[i]).value == recs[i].bookID.value
    {
    }
  }

  /** What is accepted is decided by the declared mode; without one everything is. */
  lemma {:induction false} DeclaredOrderIs<R>(h: Header, recs: seq<Record<R>>)
    requires ValidHeader(h.metas)
    ensures h.ordering.mode == "" ==> InDeclaredOrder(h, recs)
    ensures h.ordering.mode == "archive_entry" ==> (InDeclaredOrder(h, recs) <==> EntriesAscend(h.metas, recs))
    ensures h.ordering.mode == "database_book_id" ==>
      (InDeclaredOrder(h, recs) <==> BooksInOrder(h.ordering.source, recs))
    ensures h.ordering.mode !in {"", "archive_entry", "database_book_id"} ==> (InDeclaredOrder(h, recs) <==> recs == [])
  {
    EntryOrderIs(h.metas, recs);
  }
}
