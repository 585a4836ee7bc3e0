/**
 The part of the vendored signer the session stands on: the keys it holds, the mutations it stages,
 and the temporary ceremonies. A ciphertext is whatever the encryption drew; typed-in plaintext
 shares are known here by their public image.
 */
module Signers {
  import opened Wrappers
  import opened Utf8
  import opened Wire

  datatype Structure = Structure(threshold: nat, shares: map<ShareIndex, EncryptedShare>)

  datatype KeyData = KeyData(name: Str, purpose: Purpose, structures: map<StructureId, Structure>)

  datatype Mutation =
    | NewKey(key: KeyId, keyName: Str, purpose: Purpose)
    | NewAccessStructure(ref: AccessRef, threshold: nat)
    | SaveShare(ref: AccessRef, share: EncryptedShare)
    | Restoration(image: ShareImage)

  /** `KeyGenPhase4`: everything a finished ceremony saves. */
  datatype CompleteShare = CompleteShare(
    keyName: Str, purpose: Purpose, ref: AccessRef, threshold: nat, share: EncryptedShare)

  datatype Ceremony = Ceremony(keyName: Str, purpose: Purpose)

  datatype Signer = Signer(
    keys: map<KeyId, KeyData>,
    staged: seq<Mutation>,
    begun: map<KeygenId, Ceremony>,
    certified: map<KeygenId, Ceremony>,
    pending: map<KeygenId, CompleteShare>,
    loaded: set<ShareImage>,
    saved: set<ShareImage>)

  const BLANK_SIGNER := Signer(map[], [], map[], map[], map[], {}, {})

  /** `apply_mutation`: only a new key inserts; the other two modify what is already there. */
  function Apply(s: Signer, m: Mutation): Signer {
    match m
    case NewKey(key, name, purpose) =>
      s.(keys := s.keys[key := KeyData(name, purpose, map[])])
    case NewAccessStructure(ref, threshold) =>
      if ref.key !in s.keys then s
      else
        var k := s.keys[ref.key];
        s.(keys := s.keys[ref.key := k.(structures := k.structures[ref.structure := Structure(threshold, map[])])])
    case SaveShare(ref, share) =>
      var evicted := s.(loaded := s.loaded - {share.image}, saved := s.saved - {share.image});
      if ref.key !in s.keys || ref.structure !in s.keys[ref.key].structures then evicted
      else
        var k := s.keys[ref.key];
        var a := k.structures[ref.structure];
        var a' := a.(shares := a.shares[share.image.index := share]);
        evicted.(keys := s.keys[ref.key := k.(structures := k.structures[ref.structure := a'])])
    case Restoration(image) =>
      s.(saved := s.saved + {image})
  }

  /** Apply a mutation and queue it for the store. */
  function Mutate(s: Signer, m: Mutation): Signer {
    var t := Apply(s, m);
    t.(staged := t.staged + [m])
  }

  /** The three mutations of one finished ceremony, in staging order. */
  function Triple(c: CompleteShare): seq<Mutation> {
    [NewKey(c.ref.key, c.keyName, c.purpose), NewAccessStructure(c.ref, c.threshold), SaveShare(c.ref, c.share)]
  }

  function SaveCompleteShare(s: Signer, c: CompleteShare): Signer {
    var t := Triple(c);
    Mutate(Mutate(Mutate(s, t[0]), t[1]), t[2])
  }

  /** Replay without staging, as at boot. */
  function Replay(s: Signer, ms: seq<Mutation>): Signer
    decreases |ms|
  {
    if ms == [] then s else Replay(Apply(s, ms[0]), ms[1..])
  }

  function ClearTmp(s: Signer): Signer {
    s.(begun := map[], certified := map[], pending := map[], loaded := {})
  }

  function ShareAt(s: Signer, ref: AccessRef, index: ShareIndex): Option<EncryptedShare> {
    if ref.key in s.keys && ref.structure in s.keys[ref.key].structures
       && index in s.keys[ref.key].structures[ref.structure].shares
    then Some(s.keys[ref.key].structures[ref.structure].shares[index])
    else None
  }

  function HeldBy(s: Signer): set<HeldShare> {
    (set key, structure, index |
      key in s.keys && structure in s.keys[key].structures
      && index in s.keys[key].structures[structure].shares ::
      HeldShare(Some(AccessRef(key, structure)), s.keys[key].structures[structure].shares[index].image))
    + (set image | image in s.saved :: HeldShare(None, image))
  }

  /** A handler's answer: the state it leaves, and its sends or a rejection. */
  datatype Answer = Answer(signer: Signer, sends: Result<seq<Send>, ()>)

  function Reject(s: Signer): Answer {
    Answer(s, Failure(()))
  }

  function Receive(s: Signer, m: CoreMessage): Answer
    requires !m.VerifyAddress?
  {
    match m
    case KeyGen(k) => ReceiveKeygen(s, k)
    case Sign(g) => Answer(s, ReceiveSigning(s, g))
    case Restore(r) => ReceiveRestoration(s, r)
  }

  function ReceiveKeygen(s: Signer, k: Keygen): Answer {
    match k
    case Begin(id, _, _, listsUs, wellFormed, name, purpose) =>
      if !listsUs || !wellFormed then Reject(s)
      else Answer(s.(begun := s.begun[id := Ceremony(name, purpose)]),
                  Success([ToCoordinator(KeygenResponse(id))]))
    case CertifyPlease(id, verifies) =>
      if id !in s.begun then Reject(s)
      else
        var t := s.(begun := s.begun - {id});
        if !verifies then Reject(t)
        else Answer(t.(certified := t.certified[id := s.begun[id]]), Success([ToCoordinator(KeygenCertify(id))]))
    case Check(id, certificate) =>
      if id !in s.certified then Reject(s)
      else
        var t := s.(certified := s.certified - {id});
        match certificate {
          case None => Reject(t)
          case Some(c) =>
            var phase := KeygenPhase(id, c.sessionHash, s.certified[id].keyName, s.certified[id].purpose,
                                     c.ref, c.threshold, c.image);
            Answer(t, Success([ToUser(CheckKeyGen(phase))]))
        }
    case Finalize(id) =>
      if id !in s.pending then Reject(s)
      else
        var c := s.pending[id];
        Answer(SaveCompleteShare(s.(pending := s.pending - {id}), c), Success([ToUser(FinalizeKeyGen(c.keyName))]))
  }

  function ReceiveSigning(s: Signer, g: Signing): Result<seq<Send>, ()> {
    match g
    case OpenNonceStreams(jobs) =>
      if jobs == [] then Success([ToCoordinator(NonceResponse([]))]) else Success([ToUser(NonceJobs(jobs))])
    case RequestSign(ref, parties, wellFormed, nonceKnown, phase) =>
      if ref.key in s.keys && wellFormed && ref.structure in s.keys[ref.key].structures
         && (exists p :: p in parties && p in s.keys[ref.key].structures[ref.structure].shares)
         && nonceKnown
      then Success([ToUser(SignatureRequest(phase))])
      else Failure(())
  }

  function ReceiveRestoration(s: Signer, r: Restoration): Answer {
    match r
    case RequestHeldShares => Answer(s, Success([ToCoordinator(HeldShares(HeldBy(s)))]))
    case DisplayBackup(ref, index, contribution) =>
      (match ShareAt(s, ref, index)
       case None => Reject(s)
       case Some(share) =>
         var phase := BackupPhase(ref, index, share.ciphertext, contribution, s.keys[ref.key].name);
         Answer(s, Success([ToUser(AskReveal(phase))])))
    case CheckBackup(ref, index, contribution) =>
      (match ShareAt(s, ref, index)
       case None => Reject(s)
       case Some(share) =>
         var phase := BackupPhase(ref, index, share.ciphertext, contribution, s.keys[ref.key].name);
         Answer(s, Success([ToUser(AskCheck(phase))])))
    case EnterPhysicalBackup(enterId) => Answer(s, Success([ToUser(AskEntry(enterId))]))
    case SavePhysicalBackup(image) => SaveTyped(s, image)
    case SavePhysicalBackup2(image) => SaveTyped(s, image)
    case Consolidate(ref, image, validates, matches, name, purpose, threshold) =>
      if image in s.saved || image in s.loaded then
        if !validates || !matches then Reject(s)
        else Answer(s, Success([ToUser(AskConsolidate(ConsolidatePhase(ref, name, purpose, threshold, image)))]))
      else if ShareAt(s, ref, image.index).None? then Reject(s)
      else Answer(s, Success([ToCoordinator(FinishedConsolidation(ref, image.index))]))
  }

  function SaveTyped(s: Signer, image: ShareImage): Answer {
    if image !in s.loaded then Reject(s)
    else Answer(Mutate(s.(loaded := s.loaded - {image}), Restoration(image)),
                Success([ToUser(BackupSaved(image)), ToCoordinator(PhysicalSaved(image))]))
  }

  /** A confirmed action's state and what it sends. */
  datatype Acted = Acted(signer: Signer, sends: seq<Send>)

  /** `keygen_ack`: what a human's yes to the keygen check buys. */
  function AckKeygen(s: Signer, phase: KeygenPhase, ciphertext: nat): Acted {
    var c := CompleteShare(phase.keyName, phase.purpose, phase.ref, phase.threshold,
                           EncryptedShare(phase.image, ciphertext));
    Acted(s.(pending := s.pending[phase.id := c]), [ToCoordinator(KeygenAck(phase.id, phase.sessionHash))])
  }

  function Consolidated(phase: ConsolidatePhase, ciphertext: nat): CompleteShare {
    CompleteShare(phase.keyName, phase.purpose, phase.ref, phase.threshold, EncryptedShare(phase.image, ciphertext))
  }

  /** `finish_consolidation`. */
  function FinishConsolidation(s: Signer, phase: ConsolidatePhase, ciphertext: nat): Acted {
    Acted(SaveCompleteShare(s, Consolidated(phase, ciphertext)),
          [ToCoordinator(FinishedConsolidation(phase.ref, phase.image.index))])
  }

  /** `tell_coordinator_about_backup_load_result`. */
  function LoadTyped(s: Signer, enterId: EnterId, image: ShareImage): Acted {
    Acted(s.(loaded := s.loaded + {image}), [ToCoordinator(PhysicalEntered(enterId, image))])
  }

  // ---- what replaying in order, and out of order, leaves

  lemma ReplayOfThree(s: Signer, a: Mutation, b: Mutation, c: Mutation)
    ensures Replay(s, [a, b, c]) == Apply(Apply(Apply(s, a), b), c)
    ensures Replay(s, [b, c]) == Apply(Apply(s, b), c)
  {
    assert [a, b, c][1..] == [b, c] && [b, c][1..] == [c] && [c][1..] == [];
    var t := Apply(Apply(s, a), b);
    assert Replay(t, [c]) == Apply(t, c);
    assert Replay(Apply(s, a), [b, c]) == Replay(t, [c]);
    assert Replay(Apply(s, b), [c]) == Apply(Apply(s, b), c);
  }

  /** Replaying touches no ceremony. */
  lemma {:induction false} ReplayStartsNoCeremony(s: Signer, ms: seq<Mutation>)
    ensures Replay(s, ms).pending == s.pending
    decreases |ms|
  {
    if ms != [] {
      ReplayStartsNoCeremony(Apply(s, ms[0]), ms[1..]);
    }
  }

  /** The queue takes no part in applying a mutation; `Mutate` only adds to it. */
  lemma MutateQueues(s: Signer, queue: seq<Mutation>, m: Mutation)
    ensures Mutate(s.(staged := queue), m) == Apply(s, m).(staged := queue + [m])
    ensures Apply(s, m).staged == s.staged
  {
  }

  /** A triple replayed in staging order leaves exactly that share held, whatever was there before. */
  lemma TripleHolds(s: Signer, c: CompleteShare)
    ensures var t := Replay(s, Triple(c));
      && ShareAt(t, c.ref, c.share.image.index) == Some(c.share)
      && t.keys == s.keys[c.ref.key := KeyData(c.keyName, c.purpose,
                            map[c.ref.structure := Structure(c.threshold, map[c.share.image.index := c.share])])]
      && t.staged == s.staged
  {
    var m := Triple(c);
    ReplayOfThree(s, m[0], m[1], m[2]);
    var s2 := Apply(Apply(s, m[0]), m[1]);
    assert s2.keys[c.ref.key].structures == map[c.ref.structure := Structure(c.threshold, map[])];
    assert Apply(s2, m[2]).keys[c.ref.key].structures
        == map[c.ref.structure := Structure(c.threshold, map[c.share.image.index := c.share])];
  }

  /** Staging a finished ceremony applies what a replay would, and queues the triple behind what was there. */
  lemma SavingStagesTheTriple(s: Signer, c: CompleteShare)
    ensures SaveCompleteShare(s, c) == Replay(s, Triple(c)).(staged := s.staged + Triple(c))
  {
    var m := Triple(c);
    ReplayOfThree(s, m[0], m[1], m[2]);
    MutateThree(s, m[0], m[1], m[2]);
    assert [m[0], m[1], m[2]] == m;
  }

  lemma MutateThree(s: Signer, a: Mutation, b: Mutation, c: Mutation)
    ensures Mutate(Mutate(Mutate(s, a), b), c) == Apply(Apply(Apply(s, a), b), c).(staged := s.staged + [a, b, c])
  {
    MutateQueues(s, s.staged, a);
    assert s.(staged := s.staged) == s;
    var q1 := s.staged + [a];
    MutateQueues(Apply(s, a), q1, b);
    var q2 := q1 + [b];
    MutateQueues(Apply(Apply(s, a), b), q2, c);
    assert q2 + [c] == s.staged + [a, b, c];
  }

  /** On a signer that does not know the key, the last two mutations alone leave no trace of it. */
  lemma WithoutItsKeyAShareIsDropped(s: Signer, c: CompleteShare)
    requires c.ref.key !in s.keys
    ensures Replay(s, Triple(c)[1..]).keys == s.keys
  {
    var m := Triple(c);
    assert m[1..] == [m[1], m[2]];
    ReplayOfThree(s, m[0], m[1], m[2]);
  }
}
