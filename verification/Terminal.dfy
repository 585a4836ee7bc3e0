/** The simulator's terminal front-end: one key handler, and the loop that prints before every key. */
module Terminal {
  import opened Wrappers
  import opened Text

  /** `pages` counts a scene's frames; a refused scene has a screen and nothing to confirm. */
  datatype Scene = Scene(pages: nat, refused: bool)

  datatype Message =
    | Silent | NoScene | NextPage | LastPage | FirstPage | Refusal | Confirmed | Cancelled | NoKey

  /** What the front-end holds between keys. */
  datatype Front = Front(here: Option<nat>, page: nat, message: Message)

  const START := Front(None, 0, Silent)

  const USIZE: nat := 0x1_0000_0000_0000_0000

  /** What one lap prints. */
  datatype Printed = Menu(message: Message) | Page(scene: nat, page: nat, message: Message)

  predicate HavePages(scenes: seq<Scene>) {
    forall i :: 0 <= i < |scenes| ==> scenes[i].pages > 0
  }

  predicate InRange(scenes: seq<Scene>, f: Front) {
    match f.here
    case None => f.page == 0
    case Some(i) => i < |scenes| && f.page < scenes[i].pages
  }

  /** A key in the menu: a scene's number opens it at its first page. */
  function InMenu(scenes: seq<Scene>, f: Front, key: string): Front {
    match ParseBelow(key, USIZE)
    case Some(n) => if 1 <= n <= |scenes| then f.(here := Some(n - 1), page := 0) else f.(message := NoScene)
    case None => if key == "" then f else f.(message := NoScene)
  }

  /** A key in a scene. */
  function InScene(scenes: seq<Scene>, f: Front, key: string): Front
    requires f.here.Some? && f.here.value < |scenes|
  {
    var scene := scenes[f.here.value];
    var last := scene.pages - 1;
    if key in ["", "8", "9"] then if f.page < last then f.(page := f.page + 1) else f.(message := LastPage)
    else if key in ["5", "7"] then if f.page > 0 then f.(page := f.page - 1) else f.(message := FirstPage)
    else if key in ["1", "y"] then
      if scene.refused then f.(message := Refusal)
      else if f.page < last then f.(page := f.page + 1, message := NextPage)
      else f.(message := Confirmed)
    else if key == "x" then Front(None, 0, Cancelled)
    else if key in ["0", "m"] then f.(here := None, page := 0)
    else f.(message := NoKey)
  }

  /** `apply_key`; `None` means quit. */
  function Applied(scenes: seq<Scene>, f: Front, key: string): Option<Front>
    requires InRange(scenes, f)
  {
    if key == "q" then None
    else if f.here.None? then Some(InMenu(scenes, f, key))
    else Some(InScene(scenes, f, key))
  }

  function Print(f: Front): Printed {
    match f.here case None => Menu(f.message) case Some(i) => Page(i, f.page, f.message)
  }

  lemma KeysStayInRange(scenes: seq<Scene>, f: Front, key: string)
    requires HavePages(scenes) && InRange(scenes, f)
    ensures Applied(scenes, f, key).Some? ==> InRange(scenes, Applied(scenes, f, key).value)
  {
  }

  /** Everything printed from some point on, for the keys still to come. */
  function Played(scenes: seq<Scene>, f: Front, log: seq<Printed>, keys: seq<string>): seq<Printed>
    requires HavePages(scenes) && InRange(scenes, f)
    decreases |keys|
  {
    var printed := log + [Print(f)];
    if keys == [] then printed
    else
      KeysStayInRange(scenes, f.(message := Silent), keys[0]);
      match Applied(scenes, f.(message := Silent), keys[0])
      case None => printed
      case Some(next) => Played(scenes, next, printed, keys[1..])
  }

  // ---- what a confirmation stands for

  /** Scene `i` was opened from the menu just before print `o`, and has been on screen ever since. */
  predicate OpenSince(log: seq<Printed>, o: nat, i: nat) {
    1 <= o <= |log| && log[o - 1].Menu? && forall j :: o <= j < |log| ==> log[j].Page? && log[j].scene == i
  }

  predicate ShowsPage(p: Printed, page: nat) {
    p.Page? && p.page == page
  }

  /** Every page before `n` has been printed since print `o`. */
  ghost predicate ShownBelow(log: seq<Printed>, o: nat, n: nat) {
    forall p: nat :: p < n ==> PageShown(log, o, p)
  }

  ghost predicate PageShown(log: seq<Printed>, o: nat, p: nat) {
    exists j :: o <= j < |log| && ShowsPage(log[j], p)
  }

  ghost predicate SeenBelow(log: seq<Printed>, i: nat, n: nat) {
    exists o: nat :: OpenSince(log, o, i) && ShownBelow(log, o, n)
  }

  /** A print that reports a confirmation has the right to. */
  ghost predicate Honest(scenes: seq<Scene>, log: seq<Printed>, k: nat)
    requires k < |log|
  {
    log[k].message == Confirmed ==>
      && log[k].Page? && log[k].scene < |scenes| && !scenes[log[k].scene].refused
      && SeenBelow(log[..k], log[k].scene, scenes[log[k].scene].pages)
  }

  ghost predicate Earned(scenes: seq<Scene>, f: Front, log: seq<Printed>)
    requires InRange(scenes, f)
  {
    && f.here.Some? && !scenes[f.here.value].refused
    && SeenBelow(log, f.here.value, scenes[f.here.value].pages)
  }

  ghost predicate AllHonest(scenes: seq<Scene>, log: seq<Printed>) {
    forall k: nat :: k < |log| ==> Honest(scenes, log, k)
  }

  /** What holds before every print. */
  ghost predicate Keeps(scenes: seq<Scene>, f: Front, log: seq<Printed>) {
    && InRange(scenes, f)
    && (f.here.Some? ==> SeenBelow(log, f.here.value, f.page))
    && (f.message == Confirmed ==> Earned(scenes, f, log))
  }

  /** Printing a page of the open scene adds it to what has been seen of it. */
  lemma PrintSeen(log: seq<Printed>, i: nat, page: nat, m: Message)
    requires SeenBelow(log, i, page)
    ensures SeenBelow(log + [Page(i, page, m)], i, page + 1)
  {
    var o: nat :| OpenSince(log, o, i) && ShownBelow(log, o, page);
    var t := log + [Page(i, page, m)];
    forall p: nat | p < page + 1
      ensures PageShown(t, o, p)
    {
      if p == page {
        assert ShowsPage(t[|log|], p);
      } else {
        assert PageShown(log, o, p);
        var j :| o <= j < |log| && ShowsPage(log[j], p);
        assert ShowsPage(t[j], p);
      }
    }
    assert OpenSince(t, o, i);
  }

  lemma FewerSeen(log: seq<Printed>, i: nat, n: nat, m: nat)
    requires SeenBelow(log, i, n) && m <= n
    ensures SeenBelow(log, i, m)
  {
    var o: nat :| OpenSince(log, o, i) && ShownBelow(log, o, n);
    assert ShownBelow(log, o, m);
  }

  lemma JustOpened(log: seq<Printed>, m: Message, i: nat)
    ensures SeenBelow(log + [Menu(m)], i, 0)
  {
    assert OpenSince(log + [Menu(m)], |log| + 1, i);
  }

  lemma LapKeeps(scenes: seq<Scene>, f: Front, log: seq<Printed>, key: string)
    requires HavePages(scenes) && Keeps(scenes, f, log)
    ensures var next := Applied(scenes, f.(message := Silent), key);
      next.Some? ==> Keeps(scenes, next.value, log + [Print(f)])
  {
    var next := Applied(scenes, f.(message := Silent), key);
    if next.Some? {
      KeysStayInRange(scenes, f.(message := Silent), key);
      if f.here.None? {
        if next.value.here.Some? {
          JustOpened(log, f.message, next.value.here.value);
        }
      } else {
        var i, printed := f.here.value, log + [Print(f)];
        PrintSeen(log, i, f.page, f.message);
        assert SeenBelow(printed, i, f.page + 1);
        if next.value.here.Some? {
          assert next.value.here == f.here && next.value.page <= f.page + 1;
          FewerSeen(printed, i, f.page + 1, next.value.page);
          assert next.value.message == Confirmed ==> f.page + 1 == scenes[i].pages && !scenes[i].refused;
        }
      }
    }
  }

  lemma PrintIsHonest(scenes: seq<Scene>, f: Front, log: seq<Printed>)
    requires Keeps(scenes, f, log)
    ensures Honest(scenes, log + [Print(f)], |log|)
  {
    assert (log + [Print(f)])[..|log|] == log;
  }

  lemma {:induction false} PlayedHonestly(scenes: seq<Scene>, f: Front, log: seq<Printed>, keys: seq<string>)
    requires HavePages(scenes) && Keeps(scenes, f, log)
    requires AllHonest(scenes, log)
    ensures AllHonest(scenes, Played(scenes, f, log, keys))
    decreases |keys|
  {
    var printed := log + [Print(f)];
    forall k: nat | k < |printed|
      ensures Honest(scenes, printed, k)
    {
      if k < |log| {
        assert printed[..k] == log[..k] && Honest(scenes, log, k);
      } else {
        PrintIsHonest(scenes, f, log);
      }
    }
    if keys != [] {
      LapKeeps(scenes, f, log, keys[0]);
      var next := Applied(scenes, f.(message := Silent), keys[0]);
      if next.Some? {
        PlayedHonestly(scenes, next.value, printed, keys[1..]);
        assert Played(scenes, f, log, keys) == Played(scenes, next.value, printed, keys[1..]);
      }
    }
  }

  /**
   Whatever is typed: a confirmation is only ever reported of a scene that is not a refusal, and only
   after every page of it has been printed since it was last opened.
   */
  lemma ConfirmedOnlyAfterEveryPage(scenes: seq<Scene>, keys: seq<string>, k: nat)
    requires HavePages(scenes) && k < |Played(scenes, START, [], keys)|
    ensures Honest(scenes, Played(scenes, START, [], keys), k)
  {
    PlayedHonestly(scenes, START, [], keys);
  }

  // ---- where the keys lead

  const FORWARD := ["", "8", "9"]
  const BACK := ["5", "7"]

  /** Back undoes forward, and forward back, wherever there is a page to go to. */
  lemma BackUndoesForward(scenes: seq<Scene>, f: Front, there: string, back: string)
    requires InRange(scenes, f) && f.here.Some? && there in FORWARD && back in BACK
    ensures f.page + 1 < scenes[f.here.value].pages ==>
      && Applied(scenes, f, there) == Some(f.(page := f.page + 1))
      && Applied(scenes, f.(page := f.page + 1), back) == Some(f)
    ensures f.page > 0 ==>
      && Applied(scenes, f, back) == Some(f.(page := f.page - 1))
      && Applied(scenes, f.(page := f.page - 1), there) == Some(f)
  {
    assert FORWARD[0] == "" && FORWARD[1] == "8" && FORWARD[2] == "9" && BACK[0] == "5" && BACK[1] == "7";
  }

  /** At either end the page stays, and the message says which end it is. */
  lemma EndsStay(scenes: seq<Scene>, f: Front, there: string, back: string)
    requires InRange(scenes, f) && f.here.Some? && there in FORWARD && back in BACK
    ensures f.page + 1 == scenes[f.here.value].pages ==> Applied(scenes, f, there) == Some(f.(message := LastPage))
    ensures f.page == 0 ==> Applied(scenes, f, back) == Some(f.(message := FirstPage))
  {
    assert FORWARD[0] == "" && FORWARD[1] == "8" && FORWARD[2] == "9" && BACK[0] == "5" && BACK[1] == "7";
  }

  /** A scene's number opens it at its first page, and leaving it gives the menu back. */
  lemma NumbersOpen(scenes: seq<Scene>, m: Message, n: nat)
    requires 1 <= n <= |scenes| < USIZE
    ensures var front := Front(Some(n - 1), 0, m);
      && Applied(scenes, Front(None, 0, m), Decimal(n)) == Some(front)
      && (scenes[n - 1].pages > 0 ==>
            && Applied(scenes, front, "m") == Applied(scenes, front, "0") == Some(Front(None, 0, m))
            && Applied(scenes, front, "x") == Some(Front(None, 0, Cancelled)))
  {
    PrintedNumbersParse(n, USIZE);
    assert IsDigit(Decimal(n)[0]);
    assert Decimal(n)[0] != "q"[0];
  }

  /** Any other key changes nothing but the message. */
  lemma OtherKeysStay(scenes: seq<Scene>, f: Front, key: string)
    requires InRange(scenes, f) && key != "q"
    requires if f.here.Some? then key !in ["", "8", "9", "5", "7", "1", "y", "x", "0", "m"]
             else key != "" && forall n :: ParseBelow(key, USIZE) == Some(n) ==> n == 0 || n > |scenes|
    ensures Applied(scenes, f, key) == Some(f.(message := if f.here.Some? then NoKey else NoScene))
  {
  }

  /** A confirmation printed is of the key just typed: a yes to the last page, printed just before it. */
  lemma {:induction false} ConfirmedIsFresh(scenes: seq<Scene>, f: Front, log: seq<Printed>, keys: seq<string>, k: nat)
    requires HavePages(scenes) && InRange(scenes, f) && |log| < k < |Played(scenes, f, log, keys)|
    requires Played(scenes, f, log, keys)[k].message == Confirmed
    ensures k - |log| <= |keys| && keys[k - |log| - 1] in ["1", "y"]
    ensures LastPageOf(scenes, Played(scenes, f, log, keys)[k - 1])
    decreases |keys|
  {
    var printed, quiet := log + [Print(f)], f.(message := Silent);
    KeysStayInRange(scenes, quiet, keys[0]);
    var next := Applied(scenes, quiet, keys[0]).value;
    assert Played(scenes, f, log, keys) == Played(scenes, next, printed, keys[1..]);
    PlayedGoesOn(scenes, next, printed, keys[1..]);
    if k == |printed| {
      ConfirmedIff(scenes, quiet, keys[0]);
      assert Played(scenes, next, printed, keys[1..])[k] == Print(next);
      assert Played(scenes, next, printed, keys[1..])[k - 1] == Print(f);
    } else {
      ConfirmedIsFresh(scenes, next, printed, keys[1..], k);
    }
  }

  predicate LastPageOf(scenes: seq<Scene>, p: Printed) {
    p.Page? && p.scene < |scenes| && p.page + 1 == scenes[p.scene].pages
  }

  lemma {:induction false} PlayedGoesOn(scenes: seq<Scene>, f: Front, log: seq<Printed>, keys: seq<string>)
    requires HavePages(scenes) && InRange(scenes, f)
    ensures log + [Print(f)] <= Played(scenes, f, log, keys)
    decreases |keys|
  {
    if keys != [] {
      var quiet := f.(message := Silent);
      KeysStayInRange(scenes, quiet, keys[0]);
      var next := Applied(scenes, quiet, keys[0]);
      if next.Some? {
        PlayedGoesOn(scenes, next.value, log + [Print(f)], keys[1..]);
      }
    }
  }

  /** A key answers yes exactly by being a yes on the last page of a scene that is not refused. */
  lemma ConfirmedIff(scenes: seq<Scene>, f: Front, key: string)
    requires InRange(scenes, f) && f.message != Confirmed
    ensures Applied(scenes, f, key).Some? && Applied(scenes, f, key).value.message == Confirmed <==>
      && f.here.Some? && (key == "1" || key == "y")
      && !scenes[f.here.value].refused && f.page + 1 == scenes[f.here.value].pages
  {
  }

  class FrontEnd {
    const scenes: seq<Scene>
    var here: Option<nat>
    var page: nat
    var message: Message

    ghost function Now(): Front
      reads this
    {
      Front(here, page, message)
    }

    ghost predicate Valid()
      reads this
    {
      HavePages(scenes) && InRange(scenes, Now())
    }

    constructor (scenes: seq<Scene>)
      requires HavePages(scenes)
      ensures Valid() && this.scenes == scenes && Now() == START
    {
      this.scenes := scenes;
      here, page, message := None, 0, Silent;
    }

    method ApplyKey(key: string) returns (goes: bool)
      requires Valid()
      modifies this
      ensures Valid()
      ensures goes <==> Applied(scenes, old(Now()), key).Some?
      ensures Now() == if goes then Applied(scenes, old(Now()), key).value else old(Now())
    {
      if key == "q" {
        return false;
      }
      goes := true;
      match here {
        case None =>
          var number := ParseBelow(key, USIZE);
          if number.Some? && 1 <= number.value <= |scenes| {
            here := Some(number.value - 1);
            page := 0;
          } else if key != "" {
            message := NoScene;
          }
        case Some(i) =>
          var last := scenes[i].pages - 1;
          if key in ["", "8", "9"] {
            if page < last {
              page := page + 1;
            } else {
              message := LastPage;
            }
          } else if key in ["5", "7"] {
            if page > 0 {
              page := page - 1;
            } else {
              message := FirstPage;
            }
          } else if key in ["1", "y"] {
            if scenes[i].refused {
              message := Refusal;
            } else if page < last {
              page := page + 1;
              message := NextPage;
            } else {
              message := Confirmed;
            }
          } else if key == "x" {
            here := None;
            page := 0;
            message := Cancelled;
          } else if key in ["0", "m"] {
            here := None;
            page := 0;
          } else {
            message := NoKey;
          }
      }
    }

    /** The loop of `main`: print, clear the message, take a key. */
    method Loop(keys: seq<string>) returns (log: seq<Printed>)
      requires Valid() && Now() == START
      modifies this
      ensures Valid() && log == Played(scenes, START, [], keys)
    {
      log := [];
      var i := 0;
      while true
        invariant Valid() && i <= |keys|
        invariant Played(scenes, Now(), log, keys[i..]) == Played(scenes, START, [], keys)
        decreases |keys| - i
      {
        log := log + [match here case None => Menu(message) case Some(n) => Page(n, page, message)];
        message := Silent;
        if i == |keys| {
          return;
        }
        var goes := ApplyKey(keys[i]);
        if !goes {
          return;
        }
        i := i + 1;
      }
    }
  }
}
