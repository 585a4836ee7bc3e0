/** The prompt-to-screen map, reduced to what may be answered on the page it draws. */
module Screens {
  import opened Wrappers
  import opened Utf8
  import opened Wire
  import opened Text

  const COLS: nat := 16

  datatype Shown = Nothing | Info | Page(last: bool)

  /** Rows 2 and 4 of the reveal and quiz questions; the other rows are constants that fit. */
  predicate BackupConsentFits(keyName: Str, index: ShareIndex) {
    CharCount(keyName) <= COLS && |"share #" + Decimal(index)| <= COLS
  }

  predicate ConsolidateConsentFits(keyName: Str, index: ShareIndex, threshold: nat) {
    CharCount(keyName) <= COLS && |"#" + Decimal(index) + " of " + Decimal(threshold) + "-of-n"| <= COLS
  }

  /** `prompt_screen_at`: what page `page` of a prompt draws, or why it is not drawn. */
  function PromptScreen(prompt: Prompt, page: nat): Result<Shown, Refusal> {
    match prompt
    case CheckKeyGen(_) => Success(Page(true))
    case SignatureRequest(phase) =>
      (match phase.task
       case TestMessage(renderable) => if renderable then Success(Page(true)) else Failure(Undisplayable)
       case Transaction(Some(pages)) =>
         if page < pages then Success(Page(page + 1 == pages)) else Failure(Undisplayable)
       case Transaction(None) => Failure(Undisplayable)
       case NostrEvent => Failure(Undisplayable))
    case AskReveal(phase) =>
      if phase.index < U32 && page == 0 && BackupConsentFits(phase.keyName, phase.index)
      then Success(Page(true)) else Failure(DisplayRefused)
    case AskCheck(phase) =>
      if phase.index < U32 && page == 0 && BackupConsentFits(phase.keyName, phase.index)
      then Success(Page(true)) else Failure(DisplayRefused)
    case AskEntry(_) => Success(if page == 0 then Page(true) else Nothing)
    case AskConsolidate(phase) =>
      if page != 0 then Success(Nothing)
      else if phase.image.index < U32 && ConsolidateConsentFits(phase.keyName, phase.image.index, phase.threshold)
      then Success(Page(true))
      else Failure(PhysicalBackup)
    case ShowAddress(_, _) => Success(Info)
    case FinalizeKeyGen(_) => Success(Nothing)
    case NonceJobs(_) => Success(Nothing)
    case BackupSaved(_) => Success(Nothing)
  }

  /** The page prints the digit, so a press on it may authorise. */
  predicate Authorises(prompt: Prompt, page: nat) {
    PromptScreen(prompt, page) == Success(Page(true))
  }

  /** One page, and never a page short of the whole request, authorises a transaction or a backup flow. */
  lemma OnePageAuthorises(prompt: Prompt, page: nat)
    requires prompt.AskReveal? || prompt.AskCheck? || prompt.AskEntry? || prompt.AskConsolidate?
          || (prompt.SignatureRequest? && prompt.sign.task.Transaction?)
    ensures Authorises(prompt, page) ==>
      if prompt.SignatureRequest? then prompt.sign.task.pages == Some(page + 1) else page == 0
  {
  }

  /**
   Which press authorises what, in full: a message and a keygen check on any page, a transaction on its last, an
   entry on its first, and a backup flow on its first if its question fits the glass; nothing else ever does.
   */
  lemma AuthorisesIff(prompt: Prompt, page: nat)
    ensures Authorises(prompt, page) <==>
      match prompt
      case CheckKeyGen(_) => true
      case SignatureRequest(phase) =>
        phase.task == TestMessage(true) || (exists n: nat :: n == page + 1 && phase.task == Transaction(Some(n)))
      case AskReveal(phase) => page == 0 && CharCount(phase.keyName) <= 16 && phase.index < 1_000_000_000
      case AskCheck(phase) => page == 0 && CharCount(phase.keyName) <= 16 && phase.index < 1_000_000_000
      case AskEntry(_) => page == 0
      case AskConsolidate(phase) =>
        && page == 0 && CharCount(phase.keyName) <= 16 && phase.image.index < 0x1_0000_0000
        && |Decimal(phase.image.index)| + |Decimal(phase.threshold)| <= 6
      case _ => false
  {
    match prompt {
      case AskReveal(phase) => ShareRowHoldsNineDigits(phase.keyName, phase.index);
      case AskCheck(phase) => ShareRowHoldsNineDigits(phase.keyName, phase.index);
      case _ =>
    }
  }

  /** So a request with pages has exactly one that authorises it. */
  lemma LastPageAuthorises(prompt: Prompt, pages: nat)
    requires prompt.SignatureRequest? && prompt.sign.task == Transaction(Some(pages)) && pages > 0
    ensures forall page: nat :: Authorises(prompt, page) <==> page == pages - 1
    ensures forall page: nat :: PromptScreen(prompt, page).Success? <==> page < pages
  {
  }

  /** The share-index row holds nine digits and not ten, so most but not all of a `u32` can be asked about. */
  lemma ShareRowHoldsNineDigits(keyName: Str, index: ShareIndex)
    ensures BackupConsentFits(keyName, index) <==> CharCount(keyName) <= COLS && index < 1_000_000_000
  {
    DecimalLength(index, 9);
    assert Power10(9) == 1_000_000_000 by {
      assert Power10(3) == 1000;
      assert Power10(6) == 1000 * Power10(3);
      assert Power10(9) == 1000 * Power10(6);
    }
  }
}
