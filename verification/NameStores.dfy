/** The durable device name: a fixed record with its own checksum, in two copies. */
module NameStores {
  import opened Wrappers
  import opened Utf8
  import opened Wire
  import opened AbSlots
  import opened Storage
  import opened Tagged

  const DEVICE_NAME_MAX_BYTES: nat := 4 * DEVICE_NAME_MAX_LENGTH
  const NAME_OFF: nat := 1
  const NAME_TAG_OFF: nat := 64
  const TAG_LEN: nat := 8

  /** SHA-256, known only to be a function onto 32 bytes. */
  type Hash = h: seq<byte> -> seq<byte> | forall b :: |h(b)| == 32
    witness (b: seq<byte>) => seq(32, _ => 0)

  function TagOf(hash: Hash, body: seq<byte>): (tag: seq<byte>)
    ensures |tag| == TAG_LEN
  {
    hash(DerivationBytes(NameTag(body)))[..TAG_LEN]
  }

  function Zeros(n: nat): (z: seq<byte>)
    ensures |z| == n && forall i :: 0 <= i < n ==> z[i] == 0
  {
    seq(n, _ => 0)
  }

  function NameBody(name: Str): (body: seq<byte>)
    requires |name| <= DEVICE_NAME_MAX_BYTES
    ensures |body| == NAME_TAG_OFF
  {
    [|name|] + name + Zeros(NAME_TAG_OFF - NAME_OFF - |name|)
  }

  /** The record `Save` writes. */
  function RecordOf(hash: Hash, name: Str): NameRecord
    requires |name| <= DEVICE_NAME_MAX_BYTES
  {
    NameBody(name) + TagOf(hash, NameBody(name))
  }

  /** The name a record holds, or `None` when it is not one `Save` could have left whole. */
  function NameOf(hash: Hash, record: NameRecord): Option<Str> {
    var body, tag := record[..NAME_TAG_OFF], record[NAME_TAG_OFF..];
    var len := record[0];
    if tag != TagOf(hash, body) || len > DEVICE_NAME_MAX_BYTES || !Valid(body[NAME_OFF..NAME_OFF + len])
    then None
    else Some(body[NAME_OFF..NAME_OFF + len])
  }

  /** What `load` answers for the cells on flash. */
  function LoadedName(hash: Hash, cells: Cells<NameRecord>): Option<Str> {
    match Read(cells)
    case Holds(record) => NameOf(hash, record)
    case _ => None
  }

  /** Loading what was saved gives it back, for every name that fits. */
  lemma NameRoundTrip(hash: Hash, name: Str)
    requires |name| <= DEVICE_NAME_MAX_BYTES
    ensures NameOf(hash, RecordOf(hash, name)) == Some(name)
  {
    var record := RecordOf(hash, name);
    assert record[..NAME_TAG_OFF] == NameBody(name);
    assert record[NAME_TAG_OFF..] == TagOf(hash, NameBody(name));
    assert NameBody(name)[NAME_OFF..NAME_OFF + |name|] == name;
  }

  /** A name comes back only from a record whose tag, length and bytes all check. */
  lemma NameOnlyFromCheckedRecord(hash: Hash, record: NameRecord, name: Str)
    ensures NameOf(hash, record) == Some(name) <==>
      && record[NAME_TAG_OFF..] == TagOf(hash, record[..NAME_TAG_OFF])
      && record[0] as int == |name| <= DEVICE_NAME_MAX_BYTES
      && record[NAME_OFF..NAME_OFF + |name|] == name
  {
    var len := record[0];
    if len <= DEVICE_NAME_MAX_BYTES {
      assert record[..NAME_TAG_OFF][NAME_OFF..NAME_OFF + len] == record[NAME_OFF..NAME_OFF + len];
    }
  }

  /** Every name a coordinator can send fits the record. */
  lemma DeviceNameFits(name: DeviceName)
    ensures |name| <= DEVICE_NAME_MAX_BYTES
  {
    FourBytesPerChar(name);
  }

  // ---- a save cut off while it programs

  const DOUBLEWORD: nat := 8
  const SLOT_DOUBLEWORDS: nat := 10

  function Erased(n: nat): (e: seq<byte>)
    ensures |e| == n && forall i :: 0 <= i < n ==> e[i] == 0xFF
  {
    seq(n, _ => 0xFF)
  }

  /** One slot's image: the index, the record, and the padding to a whole doubleword. */
  function SlotImage(index: nat, record: NameRecord): (image: seq<byte>)
    ensures |image| == SLOT_DOUBLEWORDS * DOUBLEWORD
  {
    Le32(index) + record + Erased(4)
  }

  /** The record a reader finds when only the first `k` doublewords were programmed. */
  function TornRecord(index: nat, record: NameRecord, k: nat): NameRecord
    requires k <= SLOT_DOUBLEWORDS
  {
    var image: seq<byte> := SlotImage(index, record)[..k * DOUBLEWORD] + Erased((SLOT_DOUBLEWORDS - k) * DOUBLEWORD);
    image[4..4 + NAME_RECORD_LEN]
  }

  /**
   The four-byte index pushes the tag across the last two doublewords, so a tear before the last one
   leaves half of it. The record then reads as the whole name exactly when the missing half was all
   ones anyway; every earlier tear needs a body whose tag is all ones.
   */
  lemma TornSaveIsNeverAnotherName(hash: Hash, index: nat, name: Str, k: nat)
    requires |name| <= DEVICE_NAME_MAX_BYTES && k < SLOT_DOUBLEWORDS
    ensures var record := RecordOf(hash, name);
      var torn := TornRecord(index, record, k);
      if k == SLOT_DOUBLEWORDS - 1
      then NameOf(hash, torn) == if record[68..] == Erased(4) then Some(name) else None
      else NameOf(hash, torn).Some? ==> TagOf(hash, torn[..NAME_TAG_OFF]) == Erased(TAG_LEN)
  {
    var record := RecordOf(hash, name);
    var torn := TornRecord(index, record, k);
    if k == SLOT_DOUBLEWORDS - 1 {
      assert torn == record[..68] + Erased(4);
      assert torn[..NAME_TAG_OFF] == record[..NAME_TAG_OFF] == NameBody(name);
      assert record == record[..68] + record[68..];
      if record[68..] == Erased(4) {
        assert torn == record;
        NameRoundTrip(hash, name);
      } else {
        assert torn[NAME_TAG_OFF..][4..] == Erased(4);
        assert record[NAME_TAG_OFF..][4..] == record[68..];
      }
    } else {
      assert torn[NAME_TAG_OFF..] == Erased(TAG_LEN);
    }
  }

  // ---- the store

  /** What one save does to the name cells, and its answer. */
  datatype Saved = Saved(steps: seq<Cells<NameRecord>>, result: Result<(), StoreFault>)

  function SaveSteps(hash: Hash, cells: Cells<NameRecord>, name: Str, plan: WritePlan): Saved {
    if |name| > DEVICE_NAME_MAX_BYTES then Saved([], Failure(TooBig))
    else
      var (steps, outcome) := Write(cells, RecordOf(hash, name), plan);
      Saved(steps, if outcome.NotCommitted? then Failure(FlashFault) else Success(()))
  }

  class NameStore {
    const flash: Flash
    const hash: Hash

    constructor (flash: Flash, hash: Hash)
      ensures this.flash == flash && this.hash == hash
    {
      this.flash := flash;
      this.hash := hash;
    }

    method Save(name: Str, plan: WritePlan) returns (r: Result<(), StoreFault>)
      modifies flash`names
      ensures var saved := SaveSteps(hash, old(flash.names), name, plan);
        flash.names == Final(old(flash.names), saved.steps) && r == saved.result
      ensures r.Success? && !TieGoesToTornCopy(old(flash.names), plan)
              ==> LoadedName(hash, flash.names) == Some(name)
    {
      if |name| > DEVICE_NAME_MAX_BYTES {
        return Failure(TooBig);
      }
      var record := [|name|] + name + Zeros(NAME_TAG_OFF - NAME_OFF - |name|);
      var tag := TagOf(hash, record);
      record := record + tag;
      var (steps, outcome) := Write(flash.names, record, plan);
      if !outcome.NotCommitted? {
        CommittedIsReadableIffNoTornTie<NameRecord>(flash.names, record, plan);
        NameRoundTrip(hash, name);
      }
      flash.names := Final(flash.names, steps);
      r := if outcome.NotCommitted? then Failure(FlashFault) else Success(());
    }

    method Load() returns (name: Option<Str>)
      ensures name == LoadedName(hash, flash.names)
    {
      match Read(flash.names) {
        case Holds(record) => name := NameOf(hash, record);
        case _ => name := None;
      }
    }
  }
}
