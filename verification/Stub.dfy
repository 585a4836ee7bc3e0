/** The scripted human's reveal: walk the pages, copy down what the glass shows, answer the question. */
module Stub {
  import opened Wrappers
  import opened Utf8
  import opened Wire
  import opened Text
  import opened BackupPages
  import opened PageBits
  import opened Glass
  import opened Outboxes
  import opened Sessions
  import S = SessionSpec

  /** What a human has on paper. */
  datatype Sheet = Sheet(index: Option<nat>, words: map<nat, string>)

  /** Why the script gives up. */
  datatype Death =
    | NoEnd | NoNextKey | NoIndex | NoWords | DebugRefused | NotDrawn | NotAsked | NotAnswerable | NotRecorded

  /** More pages than any reveal has. */
  const PAGE_CAP: nat := 2 * (2 + (BACKUP_WORDS + WORDS_PER_PAGE - 1) / WORDS_PER_PAGE)

  // ---- what each page adds

  /** Copying numbered words down. */
  function Written(words: map<nat, string>, found: seq<Numbered>): map<nat, string>
    decreases |found|
  {
    if found == [] then words else Written(words[found[0].number := found[0].word], found[1..])
  }

  function Joined(found: seq<Numbered>): string {
    if found == [] then ""
    else Joined(found[..|found| - 1]) + (if |found| == 1 then "" else " ") + Pair(found[|found| - 1])
  }

  function Pair(n: Numbered): string {
    Decimal(n.number) + ":" + n.word
  }

  function PageReport(index: nat, words: seq<string>, page: nat): string
    requires Renderable(words) && page < PAGE_COUNT
  {
    if page == 0 then "glassindex=" + Decimal(index) else "glasswords=" + Joined(PageWords(words, WordStart(page), 0))
  }

  /** The first `k` words, each under its number. */
  function FirstWords(words: seq<string>, k: nat): (m: map<nat, string>)
    requires |words| == BACKUP_WORDS
  {
    map n: nat | n <= BACKUP_WORDS && Numbers(n, k) :: words[n - 1]
  }

  predicate Numbers(n: nat, k: nat) {
    1 <= n <= k
  }

  /** The sheet after the index page and the word pages before `page`. */
  function SheetBefore(sheet: Sheet, index: nat, words: seq<string>, page: nat): Sheet
    requires |words| == BACKUP_WORDS && 1 <= page <= PAGE_COUNT
  {
    Sheet(Some(index), sheet.words + FirstWords(words, WORDS_PER_PAGE * (page - 1)))
  }

  lemma OneMoreWord(words: seq<string>, k: nat, m: map<nat, string>)
    requires |words| == BACKUP_WORDS && k < BACKUP_WORDS
    ensures (m + FirstWords(words, k))[k + 1 := words[k]] == m + FirstWords(words, k + 1)
  {
  }

  /** Copying the rest of a page after the words before it. */
  lemma {:induction false} WritingAPage(words: seq<string>, start: nat, i: nat, m: map<nat, string>)
    requires |words| == BACKUP_WORDS && i <= WORDS_PER_PAGE
    ensures Written(m + FirstWords(words, start + i), PageWords(words, start, i))
         == m + FirstWords(words, start + WORDS_PER_PAGE)
    decreases WORDS_PER_PAGE - i
  {
    var page := PageWords(words, start, i);
    if page == [] {
      assert FirstWords(words, start + i) == FirstWords(words, start + WORDS_PER_PAGE);
    } else {
      var number, word := page[0].number, page[0].word;
      assert page[1..] == PageWords(words, start, i + 1);
      OneMoreWord(words, start + i, m);
      WritingAPage(words, start, i + 1, m);
    }
  }

  // ---- the report of a page fits one frame

  lemma {:induction false} JoinedFits(words: seq<string>, start: nat, i: nat)
    requires Renderable(words) && start < BACKUP_WORDS && i <= WORDS_PER_PAGE
    ensures forall n :: n in PageWords(words, start, i) ==> n.number < 100 && |n.word| <= MAX_WORD_LEN
    ensures |PageWords(words, start, i)| <= WORDS_PER_PAGE - i
    decreases WORDS_PER_PAGE - i
  {
    if i < WORDS_PER_PAGE && start + i < BACKUP_WORDS {
      assert CheckWord(words[start + i]);
      JoinedFits(words, start, i + 1);
    }
  }

  lemma {:induction false} JoinedIsShort(found: seq<Numbered>)
    requires forall n :: n in found ==> n.number < 100 && |n.word| <= MAX_WORD_LEN
    ensures |Joined(found)| <= 12 * |found|
    decreases |found|
  {
    if found != [] {
      var last := found[|found| - 1];
      assert last in found;
      DecimalLength(last.number, 2);
      assert Power10(2) == 100 by { assert Power10(1) == 10; }
      JoinedIsShort(found[..|found| - 1]);
    }
  }

  lemma ReportFits(index: nat, words: seq<string>, page: nat)
    requires Renderable(words) && page < PAGE_COUNT && index < U32
    ensures |PageReport(index, words, page)| <= DEBUG_MESSAGE_LIMIT
  {
    if page == 0 {
      assert |IndexRow(index)| == 1 + |Decimal(index)|;
    } else {
      JoinedFits(words, WordStart(page), 0);
      JoinedIsShort(PageWords(words, WordStart(page), 0));
    }
  }

  /** The frame that reports one page: short enough to go out whole. */
  function ReportFrame(index: nat, words: seq<string>, page: nat): (b: Body)
    requires Renderable(words) && page < PAGE_COUNT && index < U32
    ensures Frames(b) == [b]
  {
    ReportFits(index, words, page);
    Debug(GlyphBytes(PageReport(index, words, page)))
  }

  function Reports(index: nat, words: seq<string>, pages: nat): (b: seq<Body>)
    requires Renderable(words) && pages <= PAGE_COUNT && index < U32
    ensures |b| == pages && forall i :: 0 <= i < pages ==> b[i] == ReportFrame(index, words, i)
  {
    seq(pages, i requires 0 <= i < pages => ReportFrame(index, words, i))
  }

  lemma OneMoreReport(sent0: seq<Body>, index: nat, words: seq<string>, page: nat)
    requires Renderable(words) && page < PAGE_COUNT && index < U32
    ensures (sent0 + Reports(index, words, page)) + [ReportFrame(index, words, page)]
         == sent0 + Reports(index, words, page + 1)
  {
    assert Reports(index, words, page + 1) == Reports(index, words, page) + [ReportFrame(index, words, page)];
    Associates(sent0, Reports(index, words, page), ReportFrame(index, words, page));
  }

  lemma Associates(a: seq<Body>, b: seq<Body>, c: Body)
    ensures (a + b) + [c] == a + (b + [c])
  {
  }

  lemma NothingReported(sent0: seq<Body>, index: nat, words: seq<string>)
    requires Renderable(words) && index < U32
    ensures sent0 + Reports(index, words, 0) == sent0
  {
  }

  lemma EachReportFits(encode: Encoder, index: nat, words: seq<string>, page: nat)
    requires Renderable(words) && page < PAGE_COUNT && index < U32
    requires AllFit(encode, Reports(index, words, PAGE_COUNT))
    ensures encode[ReportFrame(index, words, page)].Success?
  {
    assert Reports(index, words, PAGE_COUNT)[page] == ReportFrame(index, words, page);
  }

  // ---- the walk

  /** Eight pages, one marked after another. */
  lemma PageMarked(seen: nat, page: nat)
    requires page <= PAGE_COUNT && seen < Pow2(WORD_BITS) && Pages(seen) == Whole(page)
    ensures Draws(page) <==> page < PAGE_COUNT
    ensures page < PAGE_COUNT ==> Mark(seen, page) < Pow2(WORD_BITS) && Pages(Mark(seen, page)) == Whole(page + 1)
    ensures page == PAGE_COUNT ==> AllPages(PAGE_COUNT) == Some(seen)
  {
    DrawnPages(page);
    MarkAdds(seen, page);
    assert Whole(page) + {page} == Whole(page + 1);
    CompleteIffEveryPage(seen, PAGE_COUNT);
  }

  /** What the next page of a live reveal leaves. */
  lemma NextPage(d: S.Device, s: S.State, phase: BackupPhase, words: seq<string>, page: nat, noise: PageNoise)
    requires s.revealing == Some(phase) && S.RevealPages(d, phase) == Success(words)
    requires page <= PAGE_COUNT && s.seenPages < Pow2(WORD_BITS) && Pages(s.seenPages) == Whole(page)
    ensures var o := S.ShowBackup(d, s, page);
      if page < PAGE_COUNT then
        && o.result == Success(true) && o.post == s.(seenPages := Mark(s.seenPages, page))
        && o.post.seenPages < Pow2(WORD_BITS) && Pages(o.post.seenPages) == Whole(page + 1)
        && S.Drawing(d, phase, page, noise) == Some(Rendered(phase.index, words, page, noise))
      else o.result == Success(false) && o.post == s.(revealing := None, recordPending := true)
  {
    PageMarked(s.seenPages, page);
  }

  /** Read one page's words off the glass onto the sheet. */
  method CopyWords(found: seq<Numbered>, words0: map<nat, string>) returns (report: string, words: map<nat, string>)
    ensures report == "glasswords=" + Joined(found)
    ensures words == Written(words0, found)
  {
    report := "glasswords=";
    words := words0;
    for i := 0 to |found|
      invariant report == "glasswords=" + Joined(found[..i])
      invariant Written(words0, found) == Written(words, found[i..])
    {
      assert found[..i + 1][..i] == found[..i];
      if i > 0 {
        report := report + " ";
      }
      report := report + Pair(found[i]);
      words := words[found[i].number := found[i].word];
      assert found[i..][1..] == found[i + 1..];
    }
    assert found[..|found|] == found;
  }

  /** What a reader makes of page `page`: the report of it, and the sheet with it copied down. */
  function ReadOf(frame: Frame, page: nat, sheet: Sheet): Result<(string, Sheet), Death> {
    if !Offers(frame, NEXT_KEY) then Failure(NoNextKey)
    else if page == 0 then
      match GlassShareIndex(frame)
      case None => Failure(NoIndex)
      case Some(index) => Success(("glassindex=" + Decimal(index), sheet.(index := Some(index))))
    else
      match GlassWords(frame)
      case None => Failure(NoWords)
      case Some(found) => Success(("glasswords=" + Joined(found), sheet.(words := Written(sheet.words, found))))
  }

  method ReadPage(frame: Frame, page: nat, sheet: Sheet) returns (r: Result<(string, Sheet), Death>)
    ensures r == ReadOf(frame, page, sheet)
  {
    if !Offers(frame, NEXT_KEY) {
      return Failure(NoNextKey);
    }
    if page == 0 {
      var index := GlassShareIndex(frame);
      if index.None? {
        return Failure(NoIndex);
      }
      return Success(("glassindex=" + Decimal(index.value), sheet.(index := Some(index.value))));
    }
    var found := GlassWords(frame);
    if found.None? {
      return Failure(NoWords);
    }
    var report, words := CopyWords(found.value, sheet.words);
    r := Success((report, sheet.(words := words)));
  }

  /** The sheet before a page, as the walk has it. */
  function SheetAt(sheet: Sheet, index: nat, words: seq<string>, page: nat): Sheet
    requires |words| == BACKUP_WORDS && page <= PAGE_COUNT
  {
    if page == 0 then sheet else SheetBefore(sheet, index, words, page)
  }

  lemma IndexReads(frame: Frame, index: nat, sheet0: Sheet, words: seq<string>)
    requires Renderable(words) && Offers(frame, NEXT_KEY) && GlassShareIndex(frame) == Some(index)
    ensures ReadOf(frame, 0, sheet0) == Success((PageReport(index, words, 0), SheetAt(sheet0, index, words, 1)))
  {
    assert sheet0.words + FirstWords(words, 0) == sheet0.words;
  }

  lemma PageCopied(words: seq<string>, page: nat, m: map<nat, string>)
    requires |words| == BACKUP_WORDS && 0 < page < PAGE_COUNT
    ensures Written(m + FirstWords(words, WORDS_PER_PAGE * (page - 1)), PageWords(words, WordStart(page), 0))
         == m + FirstWords(words, WORDS_PER_PAGE * page)
  {
    WritingAPage(words, WordStart(page), 0, m);
  }

  lemma WordsRead(frame: Frame, index: nat, words: seq<string>, page: nat, sheet0: Sheet)
    requires Renderable(words) && 0 < page < PAGE_COUNT
    requires Offers(frame, NEXT_KEY) && GlassWords(frame) == Some(PageWords(words, WordStart(page), 0))
    ensures ReadOf(frame, page, SheetAt(sheet0, index, words, page))
         == Success((PageReport(index, words, page), SheetAt(sheet0, index, words, page + 1)))
  {
    PageCopied(words, page, sheet0.words);
  }

  /** A page the session drew is legible whatever its noise, and reads as what was drawn. */
  lemma DrawnPageReads(index: nat, words: seq<string>, page: nat, noise: PageNoise, sheet0: Sheet)
    requires index < U32 && Renderable(words) && page < PAGE_COUNT && Draws(page)
    ensures ReadOf(Rendered(index, words, page, noise), page, SheetAt(sheet0, index, words, page))
         == Success((PageReport(index, words, page), SheetAt(sheet0, index, words, page + 1)))
  {
    if page == 0 {
      IndexReadsBack(index);
      IndexReads(IndexPage(index), index, sheet0, words);
    } else {
      WordPageReadsBack(words, WordStart(page), noise);
      WordsRead(WordsPage(words, WordStart(page), noise), index, words, page, sheet0);
    }
  }

  /** A live reveal that has shown nothing yet. */
  ghost predicate Fresh(session: Session, phase: BackupPhase, words: seq<string>)
    reads session
  {
    session.revealing == Some(phase) && session.seenPages == 0
    && S.RevealPages(session.device, phase) == Success(words)
  }

  ghost predicate AllFit(encode: Encoder, bodies: seq<Body>) {
    forall b :: b in bodies ==> encode[b].Success?
  }

  /** Where a live walk stands before page `page`. */
  ghost predicate Walking(session: Session, phase: BackupPhase, words: seq<string>, page: nat)
    reads session
  {
    && page <= PAGE_COUNT && session.revealing == Some(phase)
    && S.RevealPages(session.device, phase) == Success(words)
    && session.seenPages < Pow2(WORD_BITS) && Pages(session.seenPages) == Whole(page)
  }

  /** Where a walk, its sheet and its reports stand before a page of the reveal. */
  ghost predicate Along(session: Session, out: Outbox, sheet: Sheet, page: nat, phase: BackupPhase,
                        words: seq<string>, sheet0: Sheet, sent0: seq<Body>)
    reads session, out
  {
    && Walking(session, phase, words, page)
    && sheet == SheetAt(sheet0, phase.index, words, page)
    && out.sent == sent0 + Reports(phase.index, words, page)
  }

  /** The page about to be read is one of the reveal's, and its report will fit. */
  ghost predicate Reads(session: Session, out: Outbox, sheet: Sheet, page: nat, phase: BackupPhase,
                        words: seq<string>, sheet0: Sheet, sent0: seq<Body>)
    reads session, out
  {
    && Along(session, out, sheet, page, phase, words, sheet0, sent0) && page < PAGE_COUNT
    && out.encode[ReportFrame(phase.index, words, page)].Success?
  }

  /** One page of the walk: drawn, read, copied and reported; or the end of the pages. */
  method OnePage(session: Session, out: Outbox, sheet: Sheet, page: nat, noise: PageNoise,
                 ghost phase: BackupPhase, ghost words: seq<string>, ghost sheet0: Sheet, ghost sent0: seq<Body>)
    returns (r: Result<Option<Sheet>, Death>)
    requires session.Valid() && out.Valid()
    modifies session, out
    ensures out.Valid()
    ensures old(Reads(session, out, sheet, page, phase, words, sheet0, sent0)) ==>
      r.Success? && r.value.Some? && Along(session, out, r.value.value, page + 1, phase, words, sheet0, sent0)
    ensures old(Walking(session, phase, words, page)) && page == PAGE_COUNT ==>
      r == Success(None) && session.revealing.None? && session.recordPending && out.sent == old(out.sent)
  {
    ghost var live := Walking(session, phase, words, page);
    if live {
      NextPage(session.device, session.Now(), phase, words, page, noise);
    }
    var drawn, frame := session.ShowBackup(page, noise);
    if drawn.Failure? {
      return Failure(NotDrawn);
    }
    if !drawn.value {
      return Success(None);
    }
    if live && page < PAGE_COUNT {
      DrawnPageReads(phase.index, words, page, noise, sheet0);
    }
    var read := ReadPage(frame.value, page, sheet);
    if read.Failure? {
      return Failure(read.error);
    }
    var report := Debug(GlyphBytes(read.value.0));
    if live && page < PAGE_COUNT {
      WholeFrame(out.encode, ReportFrame(phase.index, words, page));
      OneMoreReport(sent0, phase.index, words, page);
    }
    var said := out.Push(report);
    if said.Failure? {
      return Failure(DebugRefused);
    }
    r := Success(Some(read.value.1));
  }

  lemma WalkBegins(session: Session, out: Outbox, sheet0: Sheet, phase: BackupPhase, words: seq<string>)
    requires Fresh(session, phase, words)
    ensures Along(session, out, sheet0, 0, phase, words, sheet0, out.sent)
  {
    NothingMarked();
    assert Whole(0) == {};
    NothingReported(out.sent, phase.index, words);
  }

  /** The pages of a reveal, one after another, until they run out. */
  method Walk(session: Session, out: Outbox, sheet0: Sheet, noise: seq<PageNoise>, ghost phase: BackupPhase,
              ghost words: seq<string>)
    returns (r: Result<Sheet, Death>)
    requires session.Valid() && out.Valid() && |noise| > PAGE_CAP
    modifies session, out
    ensures out.Valid()
    ensures old(Fresh(session, phase, words)) && AllFit(out.encode, Reports(phase.index, words, PAGE_COUNT)) ==>
      && r == Success(SheetBefore(sheet0, phase.index, words, PAGE_COUNT))
      && out.sent == old(out.sent) + Reports(phase.index, words, PAGE_COUNT)
      && session.revealing.None? && session.recordPending
  {
    ghost var live := Fresh(session, phase, words) && AllFit(out.encode, Reports(phase.index, words, PAGE_COUNT));
    if live {
      WalkBegins(session, out, sheet0, phase, words);
    }
    var page, sheet := 0, sheet0;
    while true
      invariant out.Valid() && page <= PAGE_CAP + 1
      invariant live ==> Along(session, out, sheet, page, phase, words, sheet0, old(out.sent))
      decreases PAGE_CAP + 1 - page
    {
      if page > PAGE_CAP {
        return Failure(NoEnd);
      }
      if live && page < PAGE_COUNT {
        EachReportFits(out.encode, phase.index, words, page);
      }
      var turned := OnePage(session, out, sheet, page, noise[page], phase, words, sheet0, old(out.sent));
      if turned.Failure? {
        return Failure(turned.error);
      }
      if turned.value.None? {
        return Success(sheet);
      }
      sheet := turned.value.value;
      page := page + 1;
    }
  }

  /** A whole walk has the index and all twenty-five words on paper, each under its own number. */
  lemma WholeSheet(sheet: Sheet, index: nat, words: seq<string>)
    requires |words| == BACKUP_WORDS
    ensures var s := SheetBefore(sheet, index, words, PAGE_COUNT);
      && s.index == Some(index)
      && (forall n: nat :: n in s.words <==> Numbers(n, BACKUP_WORDS) || n in sheet.words)
      && (forall n: nat :: n in s.words ==>
        s.words[n] == if Numbers(n, BACKUP_WORDS) then words[n - 1] else sheet.words[n])
  {
  }

  lemma RecordedSays(w: S.World, s: S.State)
    requires s.recordPending && w.encode[Body.BackupRecorded].Success?
    ensures var o := S.Recorded(w, s);
      o.result == Success(()) && o.post == s.(recordPending := false) && SentIn(o.fx) == [Body.BackupRecorded]
  {
    WholeFrame(w.encode, Body.BackupRecorded);
    SentInFrames([Body.BackupRecorded]);
  }

  /** The question drawn, its digit read back off it, and the answer given with that digit. */
  method Answer(session: Session, out: Outbox, confirm: char) returns (r: Result<(), Death>)
    requires session.Valid() && out.Valid()
    modifies session, out
    ensures out.Valid()
    ensures old(session.recordPending) && out.encode[Body.BackupRecorded].Success? ==>
      && r == Success(()) && out.sent == old(out.sent) + [Body.BackupRecorded]
      && session.revealing == old(session.revealing) && !session.recordPending
  {
    ghost var asked := session.recordPending && out.encode[Body.BackupRecorded].Success?;
    if asked {
      QuestionAdvertisesItsDigit(confirm);
      RecordedSays(session.With(out), session.Now());
    }
    if !session.recordPending {
      return Failure(NotAsked);
    }
    if AdvertisedKey(RecordedQuestion(confirm)) != Some(confirm) {
      return Failure(NotAnswerable);
    }
    var answered := session.BackupRecorded(out);
    r := if answered.Failure? then Failure(NotRecorded) else Success(());
  }

  /** Every report and the answer fit their frames. */
  ghost predicate AllSaid(encode: Encoder, index: nat, words: seq<string>)
    requires Renderable(words) && index < U32
  {
    AllFit(encode, Reports(index, words, PAGE_COUNT)) && encode[Body.BackupRecorded].Success?
  }

  /**
   `reveal`: walk the pages, then answer the recorded question with the digit read off it. From a fresh
   consent whose share decrypts, and while everything fits its frame, the walk ends, the sheet holds the
   whole backup, and the coordinator hears one report a page and then, once, that it was recorded.
   */
  method Reveal(session: Session, out: Outbox, sheet0: Sheet, noise: seq<PageNoise>, confirm: char,
                ghost phase: BackupPhase, ghost words: seq<string>)
    returns (r: Result<Sheet, Death>)
    requires session.Valid() && out.Valid() && |noise| > PAGE_CAP
    modifies session, out
    ensures out.Valid()
    ensures old(Fresh(session, phase, words)) && AllSaid(out.encode, phase.index, words) ==>
      && r == Success(SheetBefore(sheet0, phase.index, words, PAGE_COUNT))
      && out.sent == (old(out.sent) + Reports(phase.index, words, PAGE_COUNT)) + [Body.BackupRecorded]
      && session.revealing.None? && !session.recordPending
  {
    r := Walk(session, out, sheet0, noise, phase, words);
    if r.Success? {
      var answered := Answer(session, out, confirm);
      if answered.Failure? {
        r := Failure(answered.error);
      }
    }
  }
}
