/**
 Two copies of one value on flash, rewritten oldest first. A write is a sequence of cell states, so
 that a power cut is a prefix of it and a refusal is one of the ways it can stop.
 */
module AbSlots {
  import opened Wrappers

  /** `u32::MAX` marks an empty slot and is never handed out. */
  const EMPTY_INDEX: nat := 0xFFFF_FFFF
  type Index = n: nat | n < EMPTY_INDEX

  /** One copy: erased, partly programmed (its index is first, so it is there), or whole. */
  datatype Cell<V> = Blank | Torn(index: Index) | Good(index: Index, value: V)

  datatype Cells<V> = Cells(a: Cell<V>, b: Cell<V>)

  /** What a reader that checks integrity makes of the current copy. */
  datatype Reading<V> = Vacant | Damaged | Holds(value: V)

  function IndexOf<V>(c: Cell<V>): Option<Index> {
    if c.Blank? then None else Some(c.index)
  }

  /** `current_slot_and_index`: the newest index wins, the first slot on a tie. True is slot b. */
  function CurrentIsB<V>(cells: Cells<V>): bool {
    cells.b.Blank? == false && (cells.a.Blank? || cells.b.index > cells.a.index)
  }

  function Current<V>(cells: Cells<V>): Cell<V> {
    if CurrentIsB(cells) then cells.b else cells.a
  }

  function Read<V>(cells: Cells<V>): Reading<V> {
    match Current(cells)
    case Blank => Vacant
    case Torn(_) => Damaged
    case Good(_, v) => Holds(v)
  }

  /** How one slot's erase-and-program goes. */
  datatype SlotPlan = Completes | EraseRefused | ProgramRefused | ProgramStopped

  datatype WritePlan = WritePlan(first: SlotPlan, second: SlotPlan)

  datatype Outcome = Committed | CommittedSingleCopy | NotCommitted

  /** The states one slot goes through. */
  function SlotSteps<V>(index: Index, value: V, plan: SlotPlan): seq<Cell<V>> {
    match plan
    case EraseRefused => []
    case ProgramRefused => [Blank]
    case ProgramStopped => [Blank, Torn(index)]
    case Completes => [Blank, Torn(index), Good(index, value)]
  }

  function Put<V>(cells: Cells<V>, inB: bool, c: Cell<V>): Cells<V> {
    if inB then cells.(b := c) else cells.(a := c)
  }

  function PutEach<V>(cells: Cells<V>, inB: bool, steps: seq<Cell<V>>): seq<Cells<V>> {
    seq(|steps|, i requires 0 <= i < |steps| => Put(cells, inB, steps[i]))
  }

  /** The index a write will use, or `None` when the next one would be the empty mark. */
  function NextIndex<V>(cells: Cells<V>): Option<Index> {
    match IndexOf(Current(cells))
    case None => Some(0)
    case Some(i) => if i + 1 == EMPTY_INDEX then None else Some(i + 1)
  }

  /** The older slot, which is written first; slot a when both are blank. */
  function OlderIsB<V>(cells: Cells<V>): bool {
    !Current(cells).Blank? && !CurrentIsB(cells)
  }

  /** `try_write`: every cell state in turn, and what it reports. */
  function Write<V>(cells: Cells<V>, value: V, plan: WritePlan): (seq<Cells<V>>, Outcome) {
    match NextIndex(cells)
    case None => ([], NotCommitted)
    case Some(index) =>
      var firstB := OlderIsB(cells);
      var first := PutEach(cells, firstB, SlotSteps(index, value, plan.first));
      if !plan.first.Completes? then (first, NotCommitted)
      else
        var half := Put(cells, firstB, Good(index, value));
        var second := PutEach(half, !firstB, SlotSteps(index, value, plan.second));
        (first + second, if plan.second.Completes? then Committed else CommittedSingleCopy)
  }

  /** The cells once the first `k` states have happened. */
  function After<V>(cells: Cells<V>, steps: seq<Cells<V>>, k: nat): Cells<V>
    requires k <= |steps|
  {
    if k == 0 then cells else steps[k - 1]
  }

  function Final<V>(cells: Cells<V>, steps: seq<Cells<V>>): Cells<V> {
    After(cells, steps, |steps|)
  }

  /**
   The second copy is slot a exactly when the older one was slot b. If programming it stops after the
   index, both copies carry that index, the tie goes to slot a, and the whole copy in b is not read.
   */
  predicate TieGoesToTornCopy<V>(cells: Cells<V>, plan: WritePlan) {
    OlderIsB(cells) && plan.second.ProgramStopped?
  }

  /**
   A committed outcome leaves the new value readable except in that one case, where a single-copy
   commit is reported for a value that no longer reads back.
   */
  lemma CommittedIsReadableIffNoTornTie<V>(cells: Cells<V>, value: V, plan: WritePlan)
    requires !Write(cells, value, plan).1.NotCommitted?
    ensures var after := Read(Final(cells, Write(cells, value, plan).0));
      if TieGoesToTornCopy(cells, plan) then after == Damaged else after == Holds(value)
  {
    var index := NextIndex(cells).value;
    var half := Put(cells, OlderIsB(cells), Good(index, value));
    assert Read(half) == Holds(value);
    var second := PutEach(half, !OlderIsB(cells), SlotSteps(index, value, plan.second));
    assert Final(cells, Write(cells, value, plan).0) == if second == [] then half else second[|second| - 1];
  }

  /**
   A refused write leaves the previous value readable exactly when the refusal came before the new
   index reached flash; after that the reader finds a newest copy it cannot trust.
   */
  lemma RefusedKeepsOldIffIndexUnwritten<V>(cells: Cells<V>, value: V, plan: WritePlan)
    requires Write(cells, value, plan).1.NotCommitted?
    ensures var after := Read(Final(cells, Write(cells, value, plan).0));
      if NextIndex(cells).Some? && plan.first.ProgramStopped? then after == Damaged
      else after == Read(cells)
  {
  }

  /**
   A power cut after the `k`th state of a write: the old value, then damage while the first copy is
   part-written, then the new value, with damage again while slot a is part-written as the second copy.
   */
  lemma CutReadsOldDamagedOrNew<V>(cells: Cells<V>, value: V, plan: WritePlan, k: nat)
    requires k <= |Write(cells, value, plan).0|
    ensures var r := Read(After(cells, Write(cells, value, plan).0, k));
      if k <= 1 then r == Read(cells)
      else if k == 2 || (k == 5 && OlderIsB(cells)) then r == Damaged
      else r == Holds(value)
  {
  }

  /** A copy that is whole at any point of a write holds what it held before or the value being written. */
  lemma WholeCopiesAreOldOrNew<V>(cells: Cells<V>, value: V, plan: WritePlan, after: Cells<V>)
    requires after in Write(cells, value, plan).0
    ensures after.a.Good? ==> after.a == cells.a || after.a.value == value
    ensures after.b.Good? ==> after.b == cells.b || after.b.value == value
  {
    var index := NextIndex(cells).value;
    var firstB := OlderIsB(cells);
    var first := PutEach(cells, firstB, SlotSteps(index, value, plan.first));
    if after !in first {
      var half := Put(cells, firstB, Good(index, value));
      assert after in PutEach(half, !firstB, SlotSteps(index, value, plan.second));
    }
  }

  /** A write nothing interrupts leaves two whole copies of the value, under the next index. */
  lemma CompleteWrite<V>(cells: Cells<V>, value: V)
    requires NextIndex(cells).Some?
    ensures var (steps, outcome) := Write(cells, value, WritePlan(Completes, Completes));
      var copy := Good(NextIndex(cells).value, value);
      outcome == Committed && Final(cells, steps) == Cells(copy, copy)
  {
  }
}
