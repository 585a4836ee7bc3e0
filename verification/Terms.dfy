/** What a human's yes to a new share settles, and what it means to stage, store and hold just that. */
module Terms {
  import opened Wrappers
  import opened Utf8
  import opened Wire
  import opened AbSlots
  import opened Storage
  import opened Signers
  import opened ShareStores
  import opened SessionSpec
  import opened Consents

  /** Everything a share is kept with: what the prompt named, and what encrypting it drew. */
  datatype Terms = Terms(
    ref: AccessRef, threshold: nat, keyName: Str, purpose: Purpose, image: ShareImage, ciphertext: nat)

  /** What a yes to a keygen check or to a consolidation settles. */
  function TermsOf(op: Op): Option<Terms> {
    if !Confirms(op) then None
    else match op.prompt
      case CheckKeyGen(k) =>
        Some(Terms(k.ref, k.threshold, k.keyName, k.purpose, k.image, op.choice.ciphertext))
      case AskConsolidate(c) =>
        Some(Terms(c.ref, c.threshold, c.keyName, c.purpose, c.image, op.choice.ciphertext))
      case _ => None
  }

  /** The same terms, as the signer carries them. */
  function TermsIn(c: CompleteShare): Terms {
    Terms(c.ref, c.threshold, c.keyName, c.purpose, c.share.image, c.share.ciphertext)
  }

  /** The three mutations that keep a share on these terms. */
  function Staging(t: Terms): seq<Mutation> {
    [NewKey(t.ref.key, t.keyName, t.purpose),
     NewAccessStructure(t.ref, t.threshold),
     SaveShare(t.ref, EncryptedShare(t.image, t.ciphertext))]
  }

  /** A name cut to so many characters, where it has more. */
  predicate IsCut(name: Str, short: Str, n: nat) {
    short <= name && CharCount(short) == if CharCount(name) < n then CharCount(name) else n
  }

  /** The record keeps these terms, with a key name of at most fifteen characters. */
  predicate RecordsTerms(r: ShareRecord, t: Terms) {
    && r.ref == t.ref && r.threshold == t.threshold && r.purpose == t.purpose && IsCut(t.keyName, r.keyName, 15)
    && r.share.image == t.image && r.share.ciphertext == t.ciphertext
  }

  /** A key with one share in it. */
  function KeyOf(name: Str, t: Terms): KeyData {
    KeyData(name, t.purpose,
            map[t.ref.structure := Structure(t.threshold,
                map[t.image.index := EncryptedShare(t.image, t.ciphertext)])])
  }

  // ---- what the signer does with them

  lemma TripleIsStaging(c: CompleteShare)
    ensures Triple(c) == Staging(TermsIn(c))
  {
  }

  lemma RecordOfTerms(c: CompleteShare)
    ensures RecordsTerms(RecordOfShare(c), TermsIn(c))
  {
  }

  /** Saving a share moves its key and the typed-in copies of it, and queues its three mutations. */
  lemma SavingMoves(s: Signer, c: CompleteShare)
    ensures var t := SaveCompleteShare(s, c); var terms := TermsIn(c);
      t == s.(keys := s.keys[c.ref.key := KeyOf(c.keyName, terms)], staged := s.staged + Staging(terms),
              loaded := s.loaded - {c.share.image}, saved := s.saved - {c.share.image})
  {
    var m := Triple(c);
    SavingStagesTheTriple(s, c);
    TripleHolds(s, c);
    TripleIsStaging(c);
    assert [m[0], m[1], m[2]] == m;
    ReplayOfThree(s, m[0], m[1], m[2]);
  }

  /** A boot knows exactly the key of the readable record, on the record's own terms, and nothing else. */
  lemma BootIs(cells: Cells<ShareRecord>)
    ensures Reloaded(cells) ==
      match Read(cells)
      case Holds(r) =>
        Signer(map[r.ref.key := KeyData(r.keyName, r.purpose,
                   map[r.ref.structure := Structure(r.threshold, map[r.share.image.index := r.share])])],
               [], map[], map[], map[], {}, {})
      case _ => Signer(map[], [], map[], map[], map[], {}, {})
  {
    if Read(cells).Holds? {
      var r := Read(cells).value;
      var c := CompleteShare(r.keyName, r.purpose, r.ref, r.threshold, r.share);
      var m := Triple(c);
      assert Mutations(r) == m;
      TripleHolds(BLANK_SIGNER, c);
      assert [m[0], m[1], m[2]] == m;
      ReplayOfThree(BLANK_SIGNER, m[0], m[1], m[2]);
    }
  }

  /** A boot of a record kept on these terms knows the key by its cut name, with its purpose and threshold. */
  predicate BootKnows(cells: Cells<ShareRecord>, t: Terms) {
    var keys := Reloaded(cells).keys;
    && t.ref.key in keys && keys.Keys == {t.ref.key} && IsCut(t.keyName, keys[t.ref.key].name, 15)
    && keys[t.ref.key] == KeyOf(keys[t.ref.key].name, t)
  }

  lemma RecordedTermsBoot(cells: Cells<ShareRecord>, t: Terms)
    requires Read(cells).Holds? && RecordsTerms(Read(cells).value, t)
    ensures BootKnows(cells, t)
  {
    BootIs(cells);
    var r := Read(cells).value;
    assert r.share == EncryptedShare(t.image, t.ciphertext);
  }
}
