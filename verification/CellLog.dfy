/** A chip's log of finished transactions, cell by cell: what each cell's own transactions decide. */
module CellLog {
  import opened Words
  import opened Msi
  import opened CacheLine
  import opened PortedArray
  import opened Transactions
  import opened Serialised

  /** What a transaction was asked, without what it did. */
  datatype Call = JobCall(job: Job, word: Word) | SnoopCall(addr: nat, event: SnoopEvent)

  function CallOf(ev: Event): Call {
    match ev
    case JobDone(job, word, _, _) => JobCall(job, word)
    case SnoopDone(addr, event, _) => SnoopCall(addr, event)
  }

  function Calls(evs: seq<Event>): (calls: seq<Call>)
    ensures |calls| == |evs|
  {
    if evs == [] then [] else [CallOf(evs[0])] + Calls(evs[1..])
  }

  function IfOn(ev: Event, i: nat): seq<Event> {
    if Index(ev) == i then [ev] else []
  }

  /** The transactions on cell i, in order. */
  function OnCell(log: seq<Event>, i: nat): seq<Event> {
    if log == [] then [] else IfOn(log[0], i) + OnCell(log[1..], i)
  }

  lemma {:induction false} OnCellAppend(a: seq<Event>, b: seq<Event>, i: nat)
    ensures OnCell(a + b, i) == OnCell(a, i) + OnCell(b, i)
  {
    if a == [] {
      assert a + b == b;
    } else {
      assert (a + b)[0] == a[0] && (a + b)[1..] == a[1..] + b;
      OnCellAppend(a[1..], b, i);
      Associates(IfOn(a[0], i), OnCell(a[1..], i), OnCell(b, i));
    }
  }

  lemma Associates(a: seq<Event>, b: seq<Event>, c: seq<Event>)
    ensures (a + b) + c == a + (b + c)
  {}

  // ---- One cell's transactions ----

  predicate CellLegal(cell: Cell, evs: seq<Event>)
    decreases |evs|
  {
    evs != [] ==> LegalOn(cell, evs[0]) && CellLegal(EffectOn(cell, evs[0]), evs[1..])
  }

  function CellEnd(cell: Cell, evs: seq<Event>): Cell
    decreases |evs|
  {
    if evs == [] then cell else CellEnd(EffectOn(cell, evs[0]), evs[1..])
  }

  lemma {:induction false} CellLegalAppend(cell: Cell, a: seq<Event>, b: seq<Event>)
    ensures CellLegal(cell, a + b) <==> CellLegal(cell, a) && CellLegal(CellEnd(cell, a), b)
    ensures CellEnd(cell, a + b) == CellEnd(CellEnd(cell, a), b)
    decreases |a|
  {
    if a == [] {
      assert a + b == b;
    } else {
      assert (a + b)[0] == a[0] && (a + b)[1..] == a[1..] + b;
      CellLegalAppend(EffectOn(cell, a[0]), a[1..], b);
    }
  }

  lemma OneMore(cell: Cell, evs: seq<Event>, ev: Event, i: nat)
    ensures var log := evs + IfOn(ev, i); var end := CellEnd(cell, evs);
            && (CellLegal(cell, log) <==> CellLegal(cell, evs) && (Index(ev) == i ==> LegalOn(end, ev)))
            && CellEnd(cell, log) == if Index(ev) == i then EffectOn(end, ev) else end
  {
    CellLegalAppend(cell, evs, IfOn(ev, i));
    if Index(ev) != i {
      assert evs + IfOn(ev, i) == evs;
    } else {
      assert IfOn(ev, i)[1..] == [];
    }
  }

  lemma OnCellNext(log: seq<Event>, k: nat, i: nat)
    requires k < |log|
    ensures OnCell(log[..k + 1], i) == OnCell(log[..k], i) + IfOn(log[k], i)
  {
    assert log[..k + 1] == log[..k] + [log[k]];
    OnCellAppend(log[..k], [log[k]], i);
    assert OnCell([log[k]], i) == IfOn(log[k], i);
  }

  lemma EffectAt(cells: seq<Cell>, ev: Event, i: nat)
    requires |cells| == LINES && i < LINES
    ensures Effect(cells, ev)[i] == if Index(ev) == i then EffectOn(cells[i], ev) else cells[i]
    ensures Index(ev) == i ==> (Legal(cells, ev) <==> LegalOn(cells[i], ev))
  {}

  /** The array before event k, and the legality of the events up to it, cell by cell. */
  lemma {:induction false} SerialUpTo(cells: seq<Cell>, log: seq<Event>, k: nat, i: nat)
    requires |cells| == LINES && Serial(cells, log) && k <= |log| && i < LINES
    ensures CellLegal(cells[i], OnCell(log[..k], i))
    ensures Before(cells, log, k)[i] == CellEnd(cells[i], OnCell(log[..k], i))
  {
    if k > 0 {
      SerialUpTo(cells, log, k - 1, i);
      assert LegalAt(cells, log, k - 1);
      OnCellNext(log, k - 1, i);
      EffectAt(Before(cells, log, k - 1), log[k - 1], i);
      OneMore(cells[i], OnCell(log[..k - 1], i), log[k - 1], i);
    }
  }

  /** A legal log is legal on each cell, and leaves each cell as the cell's own transactions do. */
  lemma SerialByCell(cells: seq<Cell>, log: seq<Event>, i: nat)
    requires |cells| == LINES && Serial(cells, log) && i < LINES
    ensures CellLegal(cells[i], OnCell(log, i))
    ensures After(cells, log)[i] == CellEnd(cells[i], OnCell(log, i))
  {
    SerialUpTo(cells, log, |log|, i);
    assert log[..|log|] == log;
  }

  /**
   * What a cell's transactions did is decided by what they were asked: two legal histories of a cell, one
   * asked a beginning of what the other was asked, and the one is a beginning of the other.
   */
  lemma {:induction false} CallsDecide(cell: Cell, a: seq<Event>, b: seq<Event>)
    requires CellLegal(cell, a) && CellLegal(cell, b) && Calls(a) <= Calls(b)
    ensures a <= b
    decreases |a|
  {
    if a != [] {
      assert Calls(a)[0] == Calls(b)[0] && Calls(a)[1..] <= Calls(b)[1..];
      assert a[0] == b[0];
      CallsDecide(EffectOn(cell, a[0]), a[1..], b[1..]);
    }
  }

  lemma WholePrefix(a: seq<Event>, b: seq<Event>)
    requires a <= b
    ensures |a| == |b| ==> a == b
  {}

  /** A legal log, asked of a cell the first of what a legal history of the cell was asked. */
  lemma LogFollows(cells: seq<Cell>, log: seq<Event>, i: nat, history: seq<Event>)
    requires |cells| == LINES && Serial(cells, log) && i < LINES
    requires CellLegal(cells[i], history) && Calls(OnCell(log, i)) <= Calls(history)
    ensures OnCell(log, i) <= history
    ensures |OnCell(log, i)| == |history| ==> After(cells, log)[i] == CellEnd(cells[i], history)
  {
    SerialByCell(cells, log, i);
    CallsDecide(cells[i], OnCell(log, i), history);
    WholePrefix(OnCell(log, i), history);
  }
}
