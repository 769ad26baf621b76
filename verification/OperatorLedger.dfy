/** The operator ledger: any interleaving of transactions that append to one global chain under an advisory
    lock, commit, roll back or crash. */
module OperatorLedger {
  import opened Text
  import opened AuditChain
  import opened AuditLaws

  const OPERATOR_SCOPE := "@operator"

  type Pid = nat

  datatype OperatorAction = OperatorAction(actor: string, action: string, target: string, at: string)

  /** `rows` are committed, in the order they were; `open` holds each transaction's own uncommitted rows. */
  datatype Ledger = Ledger(rows: seq<Entry>, open: map<Pid, seq<Entry>>, lock: Option<Pid>)

  datatype Step = Begin | Append(action: OperatorAction) | Commit | Rollback

  /** The row `ORDER BY seq DESC LIMIT 1` answers with. */
  function Last(rows: seq<Entry>): Option<Entry> {
    if rows == [] then None
    else
      match Last(rows[1..])
      case None => Some(rows[0])
      case Some(e) => if rows[0].core.seqNo > e.core.seqNo then Some(rows[0]) else Some(e)
  }

  /** `appendOperatorEntry`, once its transaction has the lock and sees `rows`. */
  function NextEntry(h: Digest, rows: seq<Entry>, a: OperatorAction): Entry {
    var last := Last(rows);
    Link(h, if last.Some? then last.value.hash else GENESIS_PREV,
         Core(if last.Some? then last.value.core.seqNo + 1 else 1, OPERATOR_SCOPE, a.actor, a.action, a.target, a.at, None))
  }

  function Close(l: Ledger, p: Pid): Ledger {
    l.(open := l.open - {p}, lock := if l.lock == Some(p) then None else l.lock)
  }

  /** One step of transaction `p`; an append that cannot have the lock waits, which is no step at all. */
  function Next(h: Digest, l: Ledger, p: Pid, s: Step): Ledger {
    if s.Begin? then if p in l.open then l else l.(open := l.open[p := []])
    else if p !in l.open then l
    else match s
      case Append(a) =>
        if l.lock != None && l.lock != Some(p) then l
        else l.(lock := Some(p), open := l.open[p := l.open[p] + [NextEntry(h, l.rows + l.open[p], a)]])
      case Commit => Close(l, p).(rows := l.rows + l.open[p])
      case Rollback => Close(l, p)
      case Begin => l
  }

  function Run(h: Digest, l: Ledger, steps: seq<(Pid, Step)>): Ledger
    decreases |steps|
  {
    if steps == [] then l else Run(h, Next(h, l, steps[0].0, steps[0].1), steps[1..])
  }

  const EMPTY := Ledger([], map[], None)

  // ---------------------------------------------------------------- the invariant

  /** A chain of operator entries numbered from 1 without a gap. */
  ghost predicate IsLedger(h: Digest, rows: seq<Entry>) {
    IsChain(h, rows)
    && forall i :: 0 <= i < |rows| ==>
         rows[i].core.seqNo == i + 1 && rows[i].core.tenantId == OPERATOR_SCOPE && rows[i].core.changes == None
  }

  /** Only the holder of the lock has rows of its own, and they continue the committed ones. */
  ghost predicate Inv(h: Digest, l: Ledger) {
    && IsLedger(h, l.rows)
    && (forall p: Pid :: p in l.open && l.lock != Some(p) ==> l.open[p] == [])
    && (l.lock.Some? ==> l.lock.value in l.open && IsLedger(h, l.rows + l.open[l.lock.value]))
  }

  lemma {:induction false} LastIsLast(h: Digest, rows: seq<Entry>, from: nat)
    requires IsLedger(h, rows) && from <= |rows|
    ensures Last(rows[from..]) == if from < |rows| then Some(rows[|rows| - 1]) else None
    decreases |rows| - from
  {
    hide IsChain;
    if from < |rows| {
      assert rows[from..][1..] == rows[from + 1..];
      LastIsLast(h, rows, from + 1);
    }
  }

  lemma AppendKeepsLedger(h: Digest, rows: seq<Entry>, a: OperatorAction)
    requires IsLedger(h, rows)
    ensures IsLedger(h, rows + [NextEntry(h, rows, a)])
  {
    hide IsChain, EntryHash, Last;
    LastIsLast(h, rows, 0);
    assert rows[0..] == rows;
    AppendIsLinking(h, rows, NextEntry(h, rows, a));
  }

  lemma NextKeepsInv(h: Digest, l: Ledger, p: Pid, s: Step)
    requires Inv(h, l)
    ensures Inv(h, Next(h, l, p, s))
    ensures l.rows <= Next(h, l, p, s).rows
  {
    hide IsLedger, NextEntry;
    if p in l.open {
      match s
      case Append(a) =>
        if l.lock == None || l.lock == Some(p) {
          assert l.lock == None ==> l.rows + l.open[p] == l.rows;
          AppendKeepsLedger(h, l.rows + l.open[p], a);
          assert l.rows + (l.open[p] + [NextEntry(h, l.rows + l.open[p], a)])
                 == (l.rows + l.open[p]) + [NextEntry(h, l.rows + l.open[p], a)];
        }
      case Commit =>
        assert l.lock != Some(p) ==> l.rows + l.open[p] == l.rows;
        if l.lock.Some? && l.lock != Some(p) {
          assert Next(h, l, p, s).rows == l.rows;
        }
      case _ =>
    }
  }

  lemma {:induction false} RunKeepsInv(h: Digest, l: Ledger, steps: seq<(Pid, Step)>)
    requires Inv(h, l)
    ensures Inv(h, Run(h, l, steps))
    ensures l.rows <= Run(h, l, steps).rows
    decreases |steps|
  {
    hide Inv, Next;
    if steps != [] {
      NextKeepsInv(h, l, steps[0].0, steps[0].1);
      RunKeepsInv(h, Next(h, l, steps[0].0, steps[0].1), steps[1..]);
    }
  }

  /** Whatever transactions run side by side, append any number of rows each, and commit or roll back: the
      committed rows are one verifying chain numbered 1, 2, 3 and so on, and what was committed at an
      earlier moment is a prefix of it. */
  lemma CommittedRowsAreOneChain(h: Digest, before: seq<(Pid, Step)>, after: seq<(Pid, Step)>)
    ensures var early := Run(h, EMPTY, before).rows;
      var late := Run(h, EMPTY, before + after).rows;
      IsChain(h, late) && (forall i :: 0 <= i < |late| ==> late[i].core.seqNo == i + 1) && early <= late
  {
    hide Next, Run, IsChain;
    EmptyIsChain(h);
    RunKeepsInv(h, EMPTY, before);
    RunAppend(h, EMPTY, before, after);
    RunKeepsInv(h, Run(h, EMPTY, before), after);
  }

  lemma {:induction false} RunAppend(h: Digest, l: Ledger, a: seq<(Pid, Step)>, b: seq<(Pid, Step)>)
    ensures Run(h, l, a + b) == Run(h, Run(h, l, a), b)
    decreases |a|
  {
    hide Next;
    if a == [] {
      assert a + b == b;
    } else {
      assert (a + b)[1..] == a[1..] + b;
      RunAppend(h, Next(h, l, a[0].0, a[0].1), a[1..], b);
    }
  }

  // ---------------------------------------------------------------- rolling back

  /** The run without transaction `p`: its own steps gone, and the appends of others that only waited for it,
      which were no steps at all. */
  function Others(h: Digest, l: Ledger, steps: seq<(Pid, Step)>, p: Pid): seq<(Pid, Step)>
    decreases |steps|
  {
    if steps == [] then []
    else
      var rest := Others(h, Next(h, l, steps[0].0, steps[0].1), steps[1..], p);
      if steps[0].0 == p || (steps[0].1.Append? && l.lock == Some(p)) then rest else [steps[0]] + rest
  }

  lemma OwnStepIsErased(h: Digest, l: Ledger, p: Pid, s: Step)
    requires !s.Commit?
    ensures Close(Next(h, l, p, s), p) == Close(l, p)
  {
    hide NextEntry;
    assert Next(h, l, p, s).open - {p} == l.open - {p};
  }

  lemma OthersStepIsKept(h: Digest, l: Ledger, p: Pid, q: Pid, s: Step)
    requires q != p && !(s.Append? && l.lock == Some(p))
    ensures Next(h, Close(l, p), q, s) == Close(Next(h, l, q, s), p)
  {
    hide NextEntry;
    assert Next(h, Close(l, p), q, s).open == Next(h, l, q, s).open - {p};
  }

  lemma {:induction false} ErasedRun(h: Digest, l: Ledger, steps: seq<(Pid, Step)>, p: Pid)
    requires (p, Commit) !in steps
    ensures Close(Run(h, l, steps), p) == Run(h, Close(l, p), Others(h, l, steps, p))
    decreases |steps|
  {
    hide Next, Close;
    if steps != [] {
      var (q, s) := steps[0];
      assert steps[0] in steps;
      ErasedRun(h, Next(h, l, q, s), steps[1..], p);
      if q == p { OwnStepIsErased(h, l, p, s); }
      else if s.Append? && l.lock == Some(p) { WaitIsNoStep(h, l, p, q, s); }
      else {
        OthersStepIsKept(h, l, p, q, s);
        assert Others(h, l, steps, p)[1..] == Others(h, Next(h, l, q, s), steps[1..], p);
      }
    }
  }

  lemma WaitIsNoStep(h: Digest, l: Ledger, p: Pid, q: Pid, s: Step)
    requires q != p && s.Append? && l.lock == Some(p)
    ensures Next(h, l, q, s) == l
  {
  }

  /** Whatever a transaction appended, and however its steps lay between those of others: once it has rolled
      back or crashed without a commit, the ledger is what the others alone would have made it. */
  lemma RollbackErases(h: Digest, before: seq<(Pid, Step)>, steps: seq<(Pid, Step)>, p: Pid)
    requires var l := Run(h, EMPTY, before);
      p !in l.open && (p, Commit) !in steps && p !in Run(h, l, steps).open
    ensures var l := Run(h, EMPTY, before);
      Run(h, l, steps) == Run(h, l, Others(h, l, steps, p))
  {
    var l := Run(h, EMPTY, before);
    EmptyIsChain(h);
    RunKeepsInv(h, EMPTY, before);
    RunKeepsInv(h, l, steps);
    ErasedRun(h, l, steps, p);
    hide Run, Others, IsLedger;
    NothingToClose(h, l, p);
    NothingToClose(h, Run(h, l, steps), p);
  }

  lemma NothingToClose(h: Digest, l: Ledger, p: Pid)
    requires Inv(h, l) && p !in l.open
    ensures Close(l, p) == l
  {
    hide IsLedger;
    assert l.open - {p} == l.open;
  }

  lemma EmptyIsChain(h: Digest)
    ensures IsChain(h, [])
  {}
}
