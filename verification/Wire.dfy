/**
 The values that cross the session's boundary: coordinator messages in, frame bodies out, and the
 prompts a human answers. Identifiers, points and ciphertexts are only ever compared, so numbers
 stand for them; the verdicts of the cryptography travel as fields of the message they decide.
 */
module Wire {
  import opened Wrappers
  import opened Utf8

  const DEVICE_NAME_MAX_LENGTH: nat := 14

  /** `FixedString<14>`: at most 14 characters. */
  type DeviceName = s: Str | CharCount(s) <= DEVICE_NAME_MAX_LENGTH witness []

  type KeyId = nat
  type StructureId = nat
  type KeygenId = nat
  type EnterId = nat
  type ShareIndex = nat

  datatype AccessRef = AccessRef(key: KeyId, structure: StructureId)

  datatype ShareImage = ShareImage(index: ShareIndex, point: nat)

  datatype EncryptedShare = EncryptedShare(image: ShareImage, ciphertext: nat)

  datatype Purpose = Bitcoin(network: nat) | Test | Nostr

  // ---- phases: what a prompt carries and a confirmation hands back

  datatype KeygenPhase = KeygenPhase(
    id: KeygenId, sessionHash: nat, keyName: Str, purpose: Purpose,
    ref: AccessRef, threshold: nat, image: ShareImage)

  datatype SignTask =
    | TestMessage(renderable: bool)
    | Transaction(pages: Option<nat>)  // None: `sign_consent` refuses it whole
    | NostrEvent

  datatype SignPhase = SignPhase(task: SignTask, session: nat)

  datatype BackupPhase = BackupPhase(
    ref: AccessRef, index: ShareIndex, ciphertext: nat, contribution: nat, keyName: Str)

  datatype ConsolidatePhase = ConsolidatePhase(
    ref: AccessRef, keyName: Str, purpose: Purpose, threshold: nat, image: ShareImage)

  // ---- coordinator to device

  datatype Certificate = Certificate(sessionHash: nat, ref: AccessRef, threshold: nat, image: ShareImage)

  datatype Keygen =
    | Begin(id: KeygenId, devices: nat, threshold: nat, listsUs: bool, wellFormed: bool,
            keyName: Str, purpose: Purpose)
    | CertifyPlease(id: KeygenId, verifies: bool)
    | Check(id: KeygenId, certificate: Option<Certificate>)
    | Finalize(id: KeygenId)

  datatype Signing =
    | OpenNonceStreams(jobs: seq<Segment>)  // what the nonce jobs it starts will yield
    | RequestSign(ref: AccessRef, parties: set<ShareIndex>, wellFormed: bool, nonceKnown: bool,
                  phase: SignPhase)

  datatype Restoration =
    | RequestHeldShares
    | DisplayBackup(ref: AccessRef, index: ShareIndex, contribution: nat)
    | CheckBackup(ref: AccessRef, index: ShareIndex, contribution: nat)
    | EnterPhysicalBackup(enterId: EnterId)
    | SavePhysicalBackup(image: ShareImage)
    | SavePhysicalBackup2(image: ShareImage)
    | Consolidate(ref: AccessRef, image: ShareImage, validates: bool, matches: bool,
                  keyName: Str, purpose: Purpose, threshold: nat)

  datatype CoreMessage =
    | KeyGen(keygen: Keygen)
    | Sign(signing: Signing)
    | Restore(restoration: Restoration)
    | VerifyAddress(key: KeyId, derivationIndex: nat)

  datatype CoordinatorBody =
    | Core(core: CoreMessage)
    | Preview(name: DeviceName)
    | RetiredPrompt(name: DeviceName)
    | AnnounceAck
    | Cancel
    | Upgrade
    | DataErase
    | Challenge

  // ---- device to human

  datatype Prompt =
    | FinalizeKeyGen(keyName: Str)
    | CheckKeyGen(keygen: KeygenPhase)
    | SignatureRequest(sign: SignPhase)
    | ShowAddress(key: KeyId, derivationIndex: nat)
    | NonceJobs(segments: seq<Segment>)
    | AskReveal(backup: BackupPhase)
    | AskCheck(backup: BackupPhase)
    | AskEntry(enterId: EnterId)
    | AskConsolidate(consolidation: ConsolidatePhase)
    | BackupSaved(image: ShareImage)

  // ---- device to coordinator

  type Segment = nat

  datatype HeldShare = HeldShare(ref: Option<AccessRef>, image: ShareImage)

  datatype DeviceMessage =
    | KeygenResponse(id: KeygenId)
    | KeygenCertify(id: KeygenId)
    | KeygenAck(id: KeygenId, sessionHash: nat)
    | NonceResponse(segments: seq<Segment>)
    | SignatureShare(session: nat, signatures: nat)
    | PhysicalEntered(enterId: EnterId, image: ShareImage)
    | PhysicalSaved(image: ShareImage)
    | FinishedConsolidation(ref: AccessRef, index: ShareIndex)
    | HeldShares(shares: set<HeldShare>)

  datatype Body =
    | FromCore(message: DeviceMessage)
    | Debug(text: Str)
    | Announce(digest: nat)
    | SetName(name: DeviceName)
    | NeedName
    | BackupRecorded
    | BackupChecked(ref: AccessRef, index: ShareIndex)

  datatype Send = ToCoordinator(message: DeviceMessage) | ToUser(prompt: Prompt)

  // ---- faults

  datatype CommsError = FrameTooLong | EncodeFailed

  datatype StoreFault = FlashFault | NotOneKeygen | TooBig

  datatype Refusal =
    | FirmwareUpgrade | EraseRefused | GenuineChallenge | DisplayRefused | PhysicalBackup
    | AddressVerify | GroupTooLarge | Undisplayable

  datatype Fault =
    | Comms(comms: CommsError)
    | SignerFault
    | ActionFault
    | Refused(refusal: Refusal)
    | NotConfirmable
    | Store(store: StoreFault)
}
