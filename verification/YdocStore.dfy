/** Saving a collaborative document: the guard against a blind wipe, decided by what the writer's state has
    seen, and the bounded retry around one row. A document is a set of items and the items deleted, and
    applying an update joins the two. */
module YdocStore {
  import opened Text

  type Item = nat

  datatype Doc = Doc(items: set<Item>, deleted: set<Item>) {
    function Visible(): set<Item> { items - deleted }
  }

  /** `applyUpdate`. */
  function Join(a: Doc, b: Doc): Doc { Doc(a.items + b.items, a.deleted + b.deleted) }

  /** The text is empty. */
  predicate ShowsEmpty(d: Doc) { d.Visible() == {} }

  /** `isUnloadedEmptyFlush`. */
  function IsUnloadedEmptyFlush(existing: Doc, incoming: Doc): bool {
    if !ShowsEmpty(incoming) then false
    else if ShowsEmpty(existing) then false
    else !ShowsEmpty(Join(existing, incoming))
  }

  lemma JoinIsSemilattice(a: Doc, b: Doc, c: Doc)
    ensures Join(a, b) == Join(b, a) && Join(a, a) == a && Join(Join(a, b), c) == Join(a, Join(b, c))
  {
    assert (a.items + b.items) + c.items == a.items + (b.items + c.items);
    assert (a.deleted + b.deleted) + c.deleted == a.deleted + (b.deleted + c.deleted);
  }

  /** The guard refuses exactly when the incoming state shows nothing, the stored one shows something, and
      some item it shows was never deleted by the writer. */
  lemma FlushIsUnseenLoss(existing: Doc, incoming: Doc)
    ensures IsUnloadedEmptyFlush(existing, incoming) <==>
            ShowsEmpty(incoming) && exists i :: i in existing.Visible() && i !in incoming.deleted
  {
    var merged := Join(existing, incoming);
    if ShowsEmpty(incoming) {
      assert forall i :: i in incoming.items ==> i in incoming.deleted || i in incoming.Visible();
      assert forall i :: i in merged.Visible() <==> i in existing.Visible() && i !in incoming.deleted;
      if i :| i in existing.Visible() && i !in incoming.deleted { assert i in merged.Visible(); }
      if !ShowsEmpty(merged) {
        var i :| i in merged.Visible();
      }
    }
  }

  /** What a writer can do to the document it holds: take in another state, type, or delete what it sees. */
  datatype Edit = TakeIn(other: Doc) | Insert(item: Item) | DeleteAll | Delete(item: Item)

  function Apply(d: Doc, e: Edit): Doc {
    match e
    case TakeIn(o) => Join(d, o)
    case Insert(i) => d.(items := d.items + {i})
    case DeleteAll => d.(deleted := d.deleted + d.Visible())
    case Delete(i) => if i in d.Visible() then d.(deleted := d.deleted + {i}) else d
  }

  function ApplyAll(d: Doc, es: seq<Edit>): Doc
    decreases |es|
  {
    if es == [] then d else ApplyAll(Apply(d, es[0]), es[1..])
  }

  lemma {:induction false} EditsOnlyGrow(d: Doc, es: seq<Edit>)
    ensures d.items <= ApplyAll(d, es).items && d.deleted <= ApplyAll(d, es).deleted
    decreases |es|
  {
    if es != [] { EditsOnlyGrow(Apply(d, es[0]), es[1..]); }
  }

  /** A writer that loaded the stored document, at any point of its history, and ends with nothing on the
      page is always accepted: whatever it did in between, it deleted what it had loaded. */
  lemma LoadedThenClearedIsAccepted(existing: Doc, start: Doc, before: seq<Edit>, after: seq<Edit>)
    requires var d := ApplyAll(start, before); ShowsEmpty(ApplyAll(Apply(d, TakeIn(existing)), after))
    ensures !IsUnloadedEmptyFlush(existing, ApplyAll(Apply(ApplyAll(start, before), TakeIn(existing)), after))
  {
    var loaded := Apply(ApplyAll(start, before), TakeIn(existing));
    var incoming := ApplyAll(loaded, after);
    EditsOnlyGrow(loaded, after);
    FlushIsUnseenLoss(existing, incoming);
    forall i | i in existing.Visible() ensures i in incoming.deleted {
      assert i in incoming.items;
      assert i !in incoming.deleted ==> i in incoming.Visible();
    }
  }

  /** A writer whose state holds nothing of the stored document is always refused when it would wipe it. */
  lemma NeverLoadedIsRefused(existing: Doc, incoming: Doc)
    requires ShowsEmpty(incoming) && !ShowsEmpty(existing) && existing.items !! incoming.deleted
    ensures IsUnloadedEmptyFlush(existing, incoming)
  {
    FlushIsUnseenLoss(existing, incoming);
    var i :| i in existing.Visible();
  }

  // ---------------------------------------------------------------- storing

  const STORE_MAX_RETRIES: nat := 3

  /** Whether a transaction is committed and acknowledged, rolled back, or committed with its
      acknowledgement lost. */
  datatype Fate = Works | FailsBefore | FailsAfter

  /** What one attempt meets: whether its read and its update can see the row under row-level security, what
      other writers commit before the read and between the read and the update, and how it ends. */
  datatype Weather = Weather(readable: bool, writable: bool, other: Option<Doc>, between: Option<Doc>, fate: Fate)

  const FAIR := Weather(true, true, None, None, Works)

  datatype WriteOutcome = Stored | Blocked | ZeroRow | Threw

  datatype StoreResult = Result(stored: bool, blocked: bool) | Error

  /** The row as the attempt's read, and then its update, come upon it. */
  function AtRead(row: Option<Doc>, w: Weather): Option<Doc> { if w.other.Some? then w.other else row }

  function AtUpdate(row: Option<Doc>, w: Weather): Option<Doc> {
    if w.between.Some? then w.between else AtRead(row, w)
  }

  /** The guard is asked only about an empty state over a row that the read saw with a document in it. */
  predicate GuardRefuses(state: Doc, row: Option<Doc>, w: Weather) {
    ShowsEmpty(state) && w.readable && AtRead(row, w).Some? && IsUnloadedEmptyFlush(AtRead(row, w).value, state)
  }

  /** The update reaches the row and is committed. */
  predicate Lands(state: Doc, row: Option<Doc>, w: Weather) {
    w.fate != FailsBefore && !GuardRefuses(state, row, w) && w.writable
  }

  function OutcomeOf(state: Doc, row: Option<Doc>, w: Weather): WriteOutcome {
    if w.fate != Works then Threw
    else if GuardRefuses(state, row, w) then Blocked
    else if !w.writable then ZeroRow
    else Stored
  }

  /** No item that the overwritten row showed is missing from what the writer had seen deleted. */
  predicate LosesNothing(state: Doc, overwritten: Option<Doc>) {
    overwritten.None? || overwritten.value.Visible() <= state.deleted
  }

  /** When an empty state lands, the guard and the update are two statements: what the guard read is safe, and
      nothing is lost exactly when, had somebody committed in between or had the read not seen the row, that
      document happened to show only items the writer knew to be deleted. */
  lemma EmptyStoreLosesNothingExactly(state: Doc, row: Option<Doc>, w: Weather)
    requires Lands(state, row, w) && ShowsEmpty(state)
    ensures LosesNothing(state, AtUpdate(row, w)) <==>
            (w.between.Some? ==> LosesNothing(state, w.between))
            && (w.between.None? && !w.readable ==> LosesNothing(state, AtRead(row, w)))
  {
    hide IsUnloadedEmptyFlush;
    var seen := AtRead(row, w);
    if seen.Some? { FlushIsUnseenLoss(seen.value, state); }
  }

  /** A page that was empty when the guard read it is filled by another writer before the update: the empty
      state is reported stored and the new text is gone. */
  lemma CommitInBetweenCanBeLost()
    ensures var typed := Doc({7}, {});
      var w := FAIR.(between := Some(typed));
      OutcomeOf(Doc({}, {}), None, w) == Stored && !LosesNothing(Doc({}, {}), AtUpdate(None, w))
  {
    assert 7 in Doc({7}, {}).Visible();
  }

  /** The same when the row comes into view only after the read. One policy of the table is for every command, so
      a row it hides is reached by neither statement; but each statement sees what is committed when it starts,
      and the row can be inserted, or brought under the tenant, between them. */
  lemma HiddenReadCanLose()
    ensures var typed := Doc({7}, {});
      var w := FAIR.(readable := false);
      OutcomeOf(Doc({}, {}), Some(typed), w) == Stored && !LosesNothing(Doc({}, {}), AtUpdate(Some(typed), w))
  {
    assert 7 in Doc({7}, {}).Visible();
  }

  /** The row holds this writer's state exactly when stored is reported or the acknowledgement of that very
      commit was lost. */
  lemma LandsExactly(state: Doc, row: Option<Doc>, w: Weather)
    ensures Lands(state, row, w) <==>
            OutcomeOf(state, row, w) == Stored
            || (w.fate == FailsAfter && OutcomeOf(state, row, w.(fate := Works)) == Stored)
  {}

  /** One page's row; `None` is a page without a document yet. */
  class Page {
    var row: Option<Doc>
    var weather: seq<Weather>
    ghost var attempts: nat
    /** The last attempt's weather, and the row it started from. */
    ghost var last: Weather
    ghost var start: Option<Doc>
    /** The row as the other writers alone would have it. */
    ghost var others: Option<Doc>

    constructor (row: Option<Doc>, weather: seq<Weather>)
      ensures this.row == row && this.weather == weather && attempts == 0 && others == row
    {
      this.row, this.weather, attempts, others := row, weather, 0, row;
      last, start := FAIR, row;
    }

    /** `attemptWrite`: a guarded read, then an update, with other writers around and between. */
    method AttemptWrite(state: Doc) returns (o: WriteOutcome)
      modifies this
      ensures attempts == old(attempts) + 1 && start == old(row)
      ensures o == OutcomeOf(state, start, last)
      ensures row == if Lands(state, start, last) then Some(state) else AtUpdate(start, last)
      ensures others == AtUpdate(old(others), last)
    {
      hide IsUnloadedEmptyFlush, ShowsEmpty;
      attempts := attempts + 1;
      start := row;
      var w := if weather == [] then FAIR else weather[0];
      if weather != [] { weather := weather[1..]; }
      last := w;
      others := AtUpdate(others, w);
      if w.other.Some? { row := w.other; }
      var refused := ShowsEmpty(state) && w.readable && row.Some? && IsUnloadedEmptyFlush(row.value, state);
      if w.between.Some? { row := w.between; }
      if w.fate == FailsBefore { return Threw; }
      if !refused && w.writable { row := Some(state); }
      o := if w.fate == FailsAfter then Threw else if refused then Blocked else if w.writable then Stored else ZeroRow;
    }

    /** `storeYdoc`: at most four attempts, of which only the last can land; the row is this writer's exactly
        when it did, and otherwise what the other writers made of it. */
    method StoreYdoc(state: Doc) returns (r: StoreResult)
      requires others == row
      modifies this
      ensures attempts <= old(attempts) + 1 + STORE_MAX_RETRIES
      ensures row == if Lands(state, start, last) then Some(state) else others
      ensures r == Result(true, false) <==> OutcomeOf(state, start, last) == Stored
      ensures r == Result(false, true) <==> OutcomeOf(state, start, last) == Blocked
      ensures r.Error? <==> OutcomeOf(state, start, last) == Threw
      ensures r == Result(false, false) <==> OutcomeOf(state, start, last) == ZeroRow
      ensures r == Result(false, false) ==> attempts == old(attempts) + 1 + STORE_MAX_RETRIES
      ensures r == Result(false, true) ==>
                AtRead(start, last).Some? && ShowsEmpty(state)
                && exists i :: i in AtRead(start, last).value.Visible() && i !in state.deleted
      ensures Lands(state, start, last) && ShowsEmpty(state) && last.readable ==>
                (LosesNothing(state, others) <==> (last.between.Some? ==> LosesNothing(state, last.between)))
    {
      hide IsUnloadedEmptyFlush, ShowsEmpty;
      for attempt := 0 to STORE_MAX_RETRIES + 1
        invariant attempts == old(attempts) + attempt
        invariant row == others && (attempt > 0 ==> others == AtUpdate(start, last))
        invariant attempt > 0 ==> OutcomeOf(state, start, last) == ZeroRow && !Lands(state, start, last)
      {
        var o := AttemptWrite(state);
        if AtRead(start, last).Some? { FlushIsUnseenLoss(AtRead(start, last).value, state); }
        if Lands(state, start, last) && ShowsEmpty(state) { EmptyStoreLosesNothingExactly(state, start, last); }
        match o {
          case Stored => return Result(true, false);
          case Blocked => return Result(false, true);
          case Threw => return Error;
          case ZeroRow =>
        }
      }
      return Result(false, false);
    }
  }
}
