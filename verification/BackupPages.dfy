/** The pages of a backup: the share index, then four words to a page. */
module BackupPages {
  const BACKUP_WORDS: nat := 25
  const WORDS_PER_PAGE: nat := 4
  const MAX_WORD_LEN: nat := 8
  /** `usize` on the device wraps here, and the release build does not trap. */
  const USIZE: nat := 0x1_0000_0000

  predicate CheckWord(word: string) {
    && 1 <= |word| <= MAX_WORD_LEN
    && ((forall i :: 0 <= i < |word| ==> 'A' <= word[i] <= 'Z')
        || (forall i :: 0 <= i < |word| ==> 'a' <= word[i] <= 'z'))
  }

  /** `BackupPages::new` accepts these words. */
  predicate Renderable(words: seq<string>) {
    |words| == BACKUP_WORDS && forall i :: 0 <= i < |words| ==> CheckWord(words[i])
  }

  /** `1 + words.len().div_ceil(4)`. */
  const PAGE_COUNT: nat := 1 + (BACKUP_WORDS + WORDS_PER_PAGE - 1) / WORDS_PER_PAGE

  /** Index of the first word on a word page. */
  function WordStart(page: nat): nat
    requires page > 0
  {
    (page - 1) * WORDS_PER_PAGE % USIZE
  }

  /** Whether `render` draws page `page`. */
  predicate Draws(page: nat) {
    page == 0 || WordStart(page) < BACKUP_WORDS
  }

  /** Eight pages are drawn, and past them only a page number large enough to wrap the offset. */
  lemma DrawnPages(page: nat)
    requires page < USIZE
    ensures Draws(page) <==> page < PAGE_COUNT || (page > 0 && (page - 1) % 0x4000_0000 < PAGE_COUNT - 1)
  {
    if page > 0 {
      assert (page - 1) * 4 % 0x1_0000_0000 == 4 * ((page - 1) % 0x4000_0000);
    }
  }
}
