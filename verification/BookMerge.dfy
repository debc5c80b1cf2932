/**
 Merging a misfiled book into the row of the right ISBN (catalog/merge.py), and
 undoing it from the audit record alone (adminapi/views/books.py).

 Ids of every kind are numbers, times are instants.
 */
module BookMerge {
  import opened Common

  type BookId = nat
  type ListingId = nat
  type SubId = nat
  type UserId = nat
  type SchoolId = nat
  type RegionId = nat
  type Time = int

  /** What a book shows, which its snapshot copies. */
  datatype Details = Details(isbn13: Option<string>, title: string, authors: string, publisher: string,
                             publishedDate: string, coverUrl: string, source: string, createdAt: Time)

  datatype Book = Book(region: RegionId, details: Details, reviewed: Option<(Time, UserId)>)

  datatype Sub = Sub(user: UserId, book: BookId, school: Option<SchoolId>, created: Time,
                     notified: Option<Time>, region: RegionId)

  type Listings = map<ListingId, BookId>
  type Subs = map<SubId, Sub>

  datatype Shelf = Shelf(books: map<BookId, Book>, listings: Listings, subs: Subs)

  /** One entry of `dropped_subscriptions`: no book and no region. */
  datatype Dropped = Dropped(user: UserId, school: Option<SchoolId>, created: Time, notified: Option<Time>)

  /** The meta of an `admin.book_merged` event. */
  datatype MergeRecord = MergeRecord(src: BookId, snapshot: Details, dst: BookId,
                                     listings: set<ListingId>, moved: set<SubId>, dropped: map<SubId, Dropped>)

  /** `unique_together = ('user', 'book')` */
  predicate UniquePerBook(subs: Subs) {
    forall a, b :: a in subs && b in subs && a != b && subs[a].user == subs[b].user ==> subs[a].book != subs[b].book
  }

  predicate Subscribed(subs: Subs, user: UserId, book: BookId) {
    exists s :: s in subs && subs[s].user == user && subs[s].book == book
  }

  function Subscribers(subs: Subs, book: BookId): set<UserId> {
    set s | s in subs && subs[s].book == book :: subs[s].user
  }

  /** A subscription to `src` by someone already on `dst`. */
  predicate Duplicate(subs: Subs, s: SubId, src: BookId, dst: BookId)
    requires s in subs
  {
    subs[s].book == src && subs[s].user in Subscribers(subs, dst)
  }

  function ToRecord(sub: Sub): Dropped {
    Dropped(sub.user, sub.school, sub.created, sub.notified)
  }

  predicate Mergeable(shelf: Shelf, src: BookId, dst: BookId) {
    && src in shelf.books && dst in shelf.books
    && src != dst && shelf.books[src].region == shelf.books[dst].region
  }

  function Merged(shelf: Shelf, src: BookId, dst: BookId): Shelf {
    Shelf(
      shelf.books - {src},
      map l | l in shelf.listings :: if shelf.listings[l] == src then dst else shelf.listings[l],
      map s | s in shelf.subs && !Duplicate(shelf.subs, s, src, dst) ::
        if shelf.subs[s].book == src then shelf.subs[s].(book := dst) else shelf.subs[s])
  }

  function RecordOf(shelf: Shelf, src: BookId, dst: BookId): MergeRecord
    requires src in shelf.books
  {
    MergeRecord(
      src, shelf.books[src].details, dst,
      set l | l in shelf.listings && shelf.listings[l] == src,
      set s | s in shelf.subs && shelf.subs[s].book == src && !Duplicate(shelf.subs, s, src, dst),
      map s | s in shelf.subs && Duplicate(shelf.subs, s, src, dst) :: ToRecord(shelf.subs[s]))
  }

  /** What the database does on `src.delete()`: rows that still point at the
      book go with it. */
  function Cascaded(shelf: Shelf, book: BookId): Shelf {
    Shelf(
      shelf.books - {book},
      map l | l in shelf.listings && shelf.listings[l] != book :: shelf.listings[l],
      map s | s in shelf.subs && shelf.subs[s].book != book :: shelf.subs[s])
  }

  class Catalogue {
    var shelf: Shelf

    constructor (shelf: Shelf)
      ensures this.shelf == shelf
    {
      this.shelf := shelf;
    }

    /** catalog/merge.py, merge_book_into: refused when it answers None. */
    method MergeBookInto(src: BookId, dst: BookId) returns (done: Option<MergeRecord>)
      requires src in shelf.books && dst in shelf.books
      modifies this
      ensures !Mergeable(old(shelf), src, dst) ==> done == None && shelf == old(shelf)
      ensures Mergeable(old(shelf), src, dst) ==>
                shelf == Merged(old(shelf), src, dst) && done == Some(RecordOf(old(shelf), src, dst))
    {
      if src == dst || shelf.books[src].region != shelf.books[dst].region {
        return None;
      }
      var snapshot := shelf.books[src].details;
      var listings := MoveListings(src, dst);
      var moved, dropped := MoveSubscriptions(src, dst);
      assert listings == RecordOf(old(shelf), src, dst).listings && moved == RecordOf(old(shelf), src, dst).moved;
      assert dropped == RecordOf(old(shelf), src, dst).dropped;
      shelf := Cascaded(shelf, src);
      assert shelf.listings == Merged(old(shelf), src, dst).listings;
      assert shelf.subs == Merged(old(shelf), src, dst).subs;
      done := Some(MergeRecord(src, snapshot, dst, listings, moved, dropped));
    }

    /** One save per listing. */
    method MoveListings(src: BookId, dst: BookId) returns (moved: set<ListingId>)
      requires src != dst
      modifies this
      ensures moved == set l | l in old(shelf).listings && old(shelf).listings[l] == src
      ensures shelf == old(shelf).(listings := map l | l in old(shelf).listings ::
                if l in moved then dst else old(shelf).listings[l])
    {
      moved := set l | l in shelf.listings && shelf.listings[l] == src;
      var left := moved;
      while left != {}
        invariant left <= moved
        invariant shelf.books == old(shelf).books && shelf.subs == old(shelf).subs
        invariant shelf.listings == map l | l in old(shelf).listings ::
                    if l in moved - left then dst else old(shelf).listings[l]
        decreases |left|
      {
        var listing :| listing in left;
        shelf := shelf.(listings := shelf.listings[listing := dst]);
        left := left - {listing};
      }
    }

    /** Someone following both books keeps the subscription on `dst`. */
    method MoveSubscriptions(src: BookId, dst: BookId) returns (moved: set<SubId>, dropped: map<SubId, Dropped>)
      requires src != dst
      modifies this
      ensures var subs := old(shelf).subs;
              && moved == (set s | s in subs && subs[s].book == src && !Duplicate(subs, s, src, dst))
              && dropped == (map s | s in subs && Duplicate(subs, s, src, dst) :: ToRecord(subs[s]))
              && shelf == old(shelf).(subs := map s | s in subs && !Duplicate(subs, s, src, dst) ::
                   if subs[s].book == src then subs[s].(book := dst) else subs[s])
    {
      dropped := DropDuplicates(src, dst);
      moved := set s | s in shelf.subs && shelf.subs[s].book == src;
      shelf := shelf.(subs := map s | s in shelf.subs ::
        if shelf.subs[s].book == src then shelf.subs[s].(book := dst) else shelf.subs[s]);
    }

    method DropDuplicates(src: BookId, dst: BookId) returns (dropped: map<SubId, Dropped>)
      modifies this
      ensures var subs := old(shelf).subs;
              && dropped == (map s | s in subs && Duplicate(subs, s, src, dst) :: ToRecord(subs[s]))
              && shelf == old(shelf).(subs := map s | s in subs && !Duplicate(subs, s, src, dst) :: subs[s])
    {
      var already := set s | s in shelf.subs && shelf.subs[s].book == dst :: shelf.subs[s].user;
      var duplicates := set s | s in shelf.subs && shelf.subs[s].book == src && shelf.subs[s].user in already;
      assert already == Subscribers(shelf.subs, dst);
      dropped := map s | s in duplicates :: ToRecord(shelf.subs[s]);
      shelf := shelf.(subs := shelf.subs - duplicates);
    }

    /** Putting a merge back by hand, from its audit record and nothing else. */
    method UndoMerge(record: MergeRecord)
      requires record.dst in shelf.books
      modifies this
      ensures shelf == Undone(old(shelf), record)
    {
      var region := shelf.books[record.dst].region;
      shelf := shelf.(books := shelf.books[record.src := Book(region, record.snapshot, None)]);
      shelf := shelf.(listings := map l | l in shelf.listings ::
        if l in record.listings then record.src else shelf.listings[l]);
      shelf := shelf.(subs := map s | s in shelf.subs ::
        if s in record.moved then shelf.subs[s].(book := record.src) else shelf.subs[s]);
      shelf := shelf.(subs := shelf.subs + map s | s in record.dropped ::
        Restored(record.dropped[s], record.src, region));
      assert shelf.subs == Undone(old(shelf), record).subs;
    }
  }

  // ----- What a merge keeps -----

  /** No listing is lost, and none is left on the misfiled book. */
  lemma NoListingLost(shelf: Shelf, src: BookId, dst: BookId, l: ListingId)
    requires Mergeable(shelf, src, dst) && l in shelf.listings
    ensures l in Merged(shelf, src, dst).listings
    ensures Merged(shelf, src, dst).listings[l] == dst <==> shelf.listings[l] in {src, dst}
    ensures shelf.listings[l] !in {src, dst} ==> Merged(shelf, src, dst).listings[l] == shelf.listings[l]
  {
  }

  /** (user, book) stays unique. */
  lemma MergeKeepsUnique(shelf: Shelf, src: BookId, dst: BookId)
    requires Mergeable(shelf, src, dst) && UniquePerBook(shelf.subs)
    ensures UniquePerBook(Merged(shelf, src, dst).subs)
  {
  }

  /** Whoever followed either book follows the target, and nobody else does;
      with `MergeKeepsUnique`, exactly once. */
  lemma MergeUnitesSubscribers(shelf: Shelf, src: BookId, dst: BookId, user: UserId)
    requires Mergeable(shelf, src, dst)
    ensures Subscribed(Merged(shelf, src, dst).subs, user, dst) <==>
              Subscribed(shelf.subs, user, src) || Subscribed(shelf.subs, user, dst)
    ensures !Subscribed(Merged(shelf, src, dst).subs, user, src)
  {
    var subs := Merged(shelf, src, dst).subs;
    if s :| s in shelf.subs && shelf.subs[s].user == user && shelf.subs[s].book == dst {
      assert s in subs && subs[s].book == dst;
    } else if s :| s in shelf.subs && shelf.subs[s].user == user && shelf.subs[s].book == src {
      assert s in subs && subs[s].book == dst;
    }
  }

  /** Subscriptions to any other book stand as they were. */
  lemma MergeSparesOthers(shelf: Shelf, src: BookId, dst: BookId, s: SubId)
    requires Mergeable(shelf, src, dst)
    ensures s in shelf.subs && shelf.subs[s].book !in {src, dst} ==>
              s in Merged(shelf, src, dst).subs && Merged(shelf, src, dst).subs[s] == shelf.subs[s]
    ensures s in Merged(shelf, src, dst).subs && Merged(shelf, src, dst).subs[s].book != dst ==>
              s in shelf.subs && Merged(shelf, src, dst).subs[s] == shelf.subs[s]
  {
  }

  // ----- Undo -----

  /** A dropped subscription rebuilt from its record: the region comes from the
      book, for the record has none. */
  function Restored(d: Dropped, book: BookId, region: RegionId): Sub {
    Sub(d.user, book, d.school, d.created, d.notified, region)
  }

  function Undone(shelf: Shelf, record: MergeRecord): Shelf
    requires record.dst in shelf.books
  {
    var region := shelf.books[record.dst].region;
    Shelf(
      shelf.books[record.src := Book(region, record.snapshot, None)],
      map l | l in shelf.listings :: if l in record.listings then record.src else shelf.listings[l],
      (map s | s in shelf.subs ::
        if s in record.moved then shelf.subs[s].(book := record.src) else shelf.subs[s])
      + map s | s in record.dropped :: Restored(record.dropped[s], record.src, region))
  }

  /** Every dropped subscription lies in the region of its book. */
  predicate DroppedInRegion(shelf: Shelf, src: BookId, dst: BookId)
    requires src in shelf.books
  {
    forall s <- shelf.subs :: Duplicate(shelf.subs, s, src, dst) ==> shelf.subs[s].region == shelf.books[src].region
  }

  /** The record gives back every listing, and every subscription exactly when
      the dropped ones were in their book's region. */
  lemma UndoRestores(shelf: Shelf, src: BookId, dst: BookId)
    requires Mergeable(shelf, src, dst)
    ensures var back := Undone(Merged(shelf, src, dst), RecordOf(shelf, src, dst));
            && back.listings == shelf.listings
            && (back.subs == shelf.subs <==> DroppedInRegion(shelf, src, dst))
            && (back.books == shelf.books <==> shelf.books[src].reviewed.None?)
  {
  }


  /** The misfiled book goes, with everything that pointed at it moved or dropped,
      and every other book stands. */
  lemma SourceGoes(shelf: Shelf, src: BookId, dst: BookId)
    requires Mergeable(shelf, src, dst)
    ensures var after := Merged(shelf, src, dst);
            && src !in after.books
            && (forall l <- after.listings :: after.listings[l] != src)
            && (forall s <- after.subs :: after.subs[s].book != src)
            && (forall b <- shelf.books :: b != src ==> b in after.books && after.books[b] == shelf.books[b])
            && after.books.Keys <= shelf.books.Keys
  {
  }

  /** Nobody loses a subscription but by having one to the target already, and
      the record holds all of what was dropped but its region. */
  lemma DroppedExactly(shelf: Shelf, src: BookId, dst: BookId, s: SubId)
    requires Mergeable(shelf, src, dst) && s in shelf.subs
    ensures var sub, record := shelf.subs[s], RecordOf(shelf, src, dst);
            && (s !in Merged(shelf, src, dst).subs <==> sub.book == src && Subscribed(shelf.subs, sub.user, dst))
            && (s in record.dropped <==> s !in Merged(shelf, src, dst).subs)
            && (s in record.dropped ==>
                  record.dropped[s] == Dropped(sub.user, sub.school, sub.created, sub.notified))
  {
    assert Subscribed(shelf.subs, shelf.subs[s].user, dst) <==> shelf.subs[s].user in Subscribers(shelf.subs, dst);
  }
}
