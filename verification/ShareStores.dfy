/** Durable share storage: staged mutations out to one record, one record back to mutations. */
module ShareStores {
  import opened Wrappers
  import opened Utf8
  import opened Wire
  import opened AbSlots
  import opened Storage
  import opened Signers

  const KEY_NAME_MAX_CHARS: nat := 15

  /** `retain`: a typed-in plaintext share is dropped from the queue, never written. */
  function WithoutRestorations(staged: seq<Mutation>): seq<Mutation> {
    if staged == [] then []
    else if staged[0].Restoration? then WithoutRestorations(staged[1..])
    else [staged[0]] + WithoutRestorations(staged[1..])
  }

  /** Exactly the typed-in shares are dropped. */
  lemma {:induction false} OnlyRestorationsAreDropped(staged: seq<Mutation>, m: Mutation)
    ensures m in WithoutRestorations(staged) <==> m in staged && !m.Restoration?
  {
    if staged != [] {
      OnlyRestorationsAreDropped(staged[1..], m);
      assert staged == [staged[0]] + staged[1..];
    }
  }

  /** `body_from`: exactly one keygen triple naming one key, or a refusal. */
  function RecordFrom(staged: seq<Mutation>): Result<ShareRecord, StoreFault> {
    if |staged| != 3 then Failure(NotOneKeygen)
    else match (staged[0], staged[1], staged[2])
      case (NewKey(key, name, purpose), NewAccessStructure(ref, threshold), SaveShare(shareRef, share)) =>
        if ref.key == key && shareRef == ref
        then Success(ShareRecord(ref, threshold, TakeChars(name, KEY_NAME_MAX_CHARS), purpose, share))
        else Failure(NotOneKeygen)
      case _ => Failure(NotOneKeygen)
  }

  /** `Reload::mutations`: a record back as the triple, in staging order. */
  function Mutations(r: ShareRecord): seq<Mutation> {
    [NewKey(r.ref.key, r.keyName, r.purpose), NewAccessStructure(r.ref, r.threshold), SaveShare(r.ref, r.share)]
  }

  /** The record one finished ceremony is stored as. */
  function RecordOfShare(c: CompleteShare): ShareRecord {
    ShareRecord(c.ref, c.threshold, TakeChars(c.keyName, KEY_NAME_MAX_CHARS), c.purpose, c.share)
  }

  /** What one persist does: the share cells in turn, the queue it leaves, and the answer. */
  datatype Persisted = Persisted(steps: seq<Cells<ShareRecord>>, staged: seq<Mutation>, result: Result<(), StoreFault>)

  function Persist(cells: Cells<ShareRecord>, staged: seq<Mutation>, plan: WritePlan): Persisted {
    var kept := WithoutRestorations(staged);
    if kept == [] then Persisted([], [], Success(()))
    else match RecordFrom(kept)
      case Failure(error) => Persisted([], kept, Failure(error))
      case Success(record) =>
        var (steps, outcome) := Write(cells, record, plan);
        if outcome.NotCommitted? then Persisted(steps, kept, Failure(FlashFault))
        else Persisted(steps, [], Success(()))
  }

  /** A boot's signer: the stored record replayed, or nothing. */
  function Reloaded(cells: Cells<ShareRecord>): Signer {
    match Read(cells)
    case Holds(record) => Replay(BLANK_SIGNER, Mutations(record))
    case _ => BLANK_SIGNER
  }

  /** The refusal is exactly for what is not one whole triple, and a whole triple is stored as itself. */
  lemma RecordFromExactlyATriple(staged: seq<Mutation>)
    ensures RecordFrom(staged).Success? <==> exists c :: staged == Triple(c)
    ensures forall c :: staged == Triple(c) ==> RecordFrom(staged) == Success(RecordOfShare(c))
  {
    if RecordFrom(staged).Success? {
      var m := staged;
      var c := CompleteShare(m[0].keyName, m[0].purpose, m[1].ref, m[1].threshold, m[2].share);
      assert staged == Triple(c);
    }
  }

  /** Why a persist is refused: what is staged is not one whole ceremony, or its first copy could not be written. */
  lemma RefusedBecause(cells: Cells<ShareRecord>, staged: seq<Mutation>, plan: WritePlan)
    ensures var p, kept := Persist(cells, staged, plan), WithoutRestorations(staged);
      && (p.result == Failure(NotOneKeygen) <==> kept != [] && forall c :: kept != Triple(c))
      && (p.result == Failure(FlashFault) <==>
            (exists c :: kept == Triple(c)) && (NextIndex(cells).None? || !plan.first.Completes?))
      && (p.result.Failure? ==> p.result.error in {NotOneKeygen, FlashFault} && p.staged == kept)
      && (p.result == Failure(NotOneKeygen) ==> p.steps == [])
  {
    RecordFromExactlyATriple(WithoutRestorations(staged));
  }

  /** Reading back what one ceremony stored holds its share, and nothing else. */
  lemma StoredShareIsHeldAtBoot(cells: Cells<ShareRecord>, c: CompleteShare)
    requires Read(cells) == Holds(RecordOfShare(c))
    ensures var s := Reloaded(cells);
      && ShareAt(s, c.ref, c.share.image.index) == Some(c.share)
      && HeldBy(s) == {HeldShare(Some(c.ref), c.share.image)}
      && s.staged == []
  {
    var cut := c.(keyName := TakeChars(c.keyName, KEY_NAME_MAX_CHARS));
    assert Mutations(RecordOfShare(c)) == Triple(cut);
    TripleHolds(BLANK_SIGNER, cut);
    ReplayOfThree(BLANK_SIGNER, Triple(cut)[0], Triple(cut)[1], Triple(cut)[2]);
    var s := Reloaded(cells);
    assert s.saved == {};
    var want := HeldShare(Some(c.ref), c.share.image);
    assert s.keys[c.ref.key].structures[c.ref.structure].shares[c.share.image.index] == c.share;
    assert AccessRef(c.ref.key, c.ref.structure) == c.ref;
    assert want in HeldBy(s);
  }

  class ShareStore {
    const flash: Flash

    constructor (flash: Flash)
      ensures this.flash == flash
    {
      this.flash := flash;
    }

    /** Write the staged triple and drain the queue; on any fault the queue is kept. */
    method PersistStaged(staged: seq<Mutation>, plan: WritePlan)
      returns (left: seq<Mutation>, r: Result<(), StoreFault>)
      modifies flash`shares
      ensures var p := Persist(old(flash.shares), staged, plan);
        left == p.staged && r == p.result && flash.shares == Final(old(flash.shares), p.steps)
      ensures r.Success? ==> left == []
      ensures r.Failure? ==> left == WithoutRestorations(staged) != []
    {
      left := WithoutRestorations(staged);
      if left == [] {
        return [], Success(());
      }
      var record := RecordFrom(left);
      if record.Failure? {
        return left, Failure(record.error);
      }
      var (steps, outcome) := Write(flash.shares, record.value, plan);
      flash.shares := Final(flash.shares, steps);
      if outcome.NotCommitted? {
        return left, Failure(FlashFault);
      }
      return [], Success(());
    }

    method Load() returns (reading: Reading<ShareRecord>)
      ensures reading == Read(flash.shares)
    {
      reading := Read(flash.shares);
    }
  }
}
