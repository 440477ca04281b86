/**
 The landing-page component's state cells and the callback it registers for
 authentication-state changes. Each call of the callback is one run of
 `OnAuthStateChanged`; the two database reads it awaits are looked up in the
 `Database` value passed in, in the order the callback issues them.
 */
module HomePage {
  import opened Wrappers
  import opened RealtimeDb
  import opened ProfileView
  import opened EmailKey

  /** How one run of the async callback ends: it returns, or an exception
      escapes it and the remaining setters never run. The exception is one
      of: a null email passed to the key derivation, a record path that
      `ref` refuses, or a rejected read. */
  datatype Completion = Settled | Threw

  /** The display name a stored profile value provides: the `name` of an
      object when that name is truthy (a non-empty string), the value
      itself when it is a string, and nothing for every other shape. */
  function ProvidedName(v: ProfileValue): Option<string>
  {
    match v
    case ProfileObject(Some(n)) => if n != "" then Some(n) else None
    case ProfileObject(None) => None
    case NameString(s) => Some(s)
    case OtherValue => None
  }

  /** The four cells the callback writes, as one value. */
  datatype Cells = Cells(user: Option<User>, name: string, score: int, loading: bool)

  class App {
    var user: Option<User>
    var name: string
    var score: int
    var loading: bool
    var expanded: bool

    function Snapshot(): Cells
      reads this
    {
      Cells(user, name, score, loading)
    }

    /** The profile block the page currently renders. */
    function Shown(): Section
      reads this
    {
      ProfileSection(loading, user, score)
    }

    /** The initial values of the five `useState` hooks. */
    constructor ()
      ensures user == None && name == "" && score == 0 && loading && !expanded
      ensures Shown() == Skeleton
    {
      user, name, score, loading, expanded := None, "", 0, true, false;
    }

    /** The "Show More" / "Show Less" button. */
    method ToggleExpanded()
      modifies this
      ensures expanded == !old(expanded)
      ensures Snapshot() == old(Snapshot())
    {
      expanded := !expanded;
    }

    /** One run of the authentication-state callback for `currentUser`
        (None for a signed-out event). `issued` lists the paths read, in
        order; `suspended` holds the cells as they stand at each `await`,
        which is when the page may render while the read is outstanding. */
    method OnAuthStateChanged(currentUser: Option<User>, db: Database)
      returns (issued: seq<string>, completion: Completion, ghost suspended: seq<Cells>)
      modifies this
      ensures expanded == old(expanded)
      // Signed out: no reads; user cleared; name and score kept as they were.
      ensures currentUser.None? ==>
        && issued == [] && completion == Settled
        && user == None && name == old(name) && score == old(score) && !loading
      // Signed in: the user cell takes the event's user before anything is read.
      ensures currentUser.Some? ==> user == currentUser
      // A null email makes the key derivation throw: nothing is read, loading stays set.
      ensures currentUser.Some? && currentUser.value.email.None? ==>
        && issued == [] && completion == Threw && loading
        && name == old(name) && score == old(score)
      ensures currentUser.Some? && currentUser.value.email.Some? ==>
        var key := SanitizeEmail(currentUser.value.email.value);
        var profile := GetProfile(db, key);
        var stored := GetScore(db, key);
        !ValidPath(key) ==>
          && issued == [] && completion == Threw && loading
          && name == old(name) && score == old(score)
      // `ref` accepts the path: the two reads run in turn.
      ensures currentUser.Some? && currentUser.value.email.Some? &&
              ValidPath(SanitizeEmail(currentUser.value.email.value)) ==>
        var key := SanitizeEmail(currentUser.value.email.value);
        var profile := GetProfile(db, key);
        var stored := GetScore(db, key);
        && issued == (if profile.Rejected? then [UsersPath(key)] else [UsersPath(key), ScoresPath(key)])
        && completion == (if profile.Rejected? || stored.Rejected? then Threw else Settled)
        && loading == completion.Threw?
        && name == (if profile.Found? && ProvidedName(profile.val).Some?
                    then ProvidedName(profile.val).value else old(name))
        && score == (if completion.Threw? then old(score)
                     else if stored.Found? then stored.val else 0)
      // While a read is outstanding the page can only show the skeleton.
      ensures |suspended| == |issued|
      ensures forall i :: 0 <= i < |suspended| ==>
        suspended[i].loading && suspended[i].user == currentUser &&
        ProfileSection(suspended[i].loading, suspended[i].user, suspended[i].score) == Skeleton
      // What the section shows once the callback has finished or thrown.
      ensures Shown() ==
        if completion.Threw? then Skeleton
        else if currentUser.None? then SignInPrompt
        else ProfileCard(currentUser.value.email, score)
    {
      issued, suspended := [], [];
      loading := true;
      if currentUser.Some? {
        user := currentUser;
        if currentUser.value.email.None? {
          completion := Threw;
          return;
        }
        var emailKey := SanitizeEmail(currentUser.value.email.value);

        RecordPathsValid(emailKey);
        if !ValidPath(UsersPath(emailKey)) {
          completion := Threw;
          return;
        }
        issued := issued + [UsersPath(emailKey)];
        suspended := suspended + [Snapshot()];
        var userSnap := GetProfile(db, emailKey);
        if userSnap.Rejected? {
          completion := Threw;
          return;
        }
        if userSnap.Found? {
          match userSnap.val
          case ProfileObject(Some(n)) =>
            if n != "" {
              name := n;
            }
          case ProfileObject(None) =>
          case NameString(s) =>
            name := s;
          case OtherValue =>
        }

        // The score path holds the same key, so this `ref` cannot throw.
        assert ValidPath(ScoresPath(emailKey));
        issued := issued + [ScoresPath(emailKey)];
        suspended := suspended + [Snapshot()];
        var scoreSnap := GetScore(db, emailKey);
        if scoreSnap.Rejected? {
          completion := Threw;
          return;
        }
        if scoreSnap.Found? {
          score := scoreSnap.val;
        } else {
          score := 0;
        }
      } else {
        user := None;
      }
      loading := false;
      completion := Settled;
    }
  }

  /** A sign-in followed by a sign-out: the profile record is the bare
      string "Alice" and the score record is 42; after the sign-out the page
      shows the sign-in prompt, yet the name and score cells still hold the
      signed-out user's values. */
  method SignInThenSignOut(email: string) returns (name: string, score: int, shown: Section)
    requires ValidPath(SanitizeEmail(email))
    ensures name == "Alice" && score == 42 && shown == SignInPrompt
  {
    var key := SanitizeEmail(email);
    var db := Database(map[key := NameString("Alice")], map[key := 42], {});
    var app := new App();
    var issued, completion;
    ghost var suspended;
    issued, completion, suspended := app.OnAuthStateChanged(Some(User("uid-1", Some(email))), db);
    assert app.Shown() == ProfileCard(Some(email), 42);
    issued, completion, suspended := app.OnAuthStateChanged(None, db);
    name, score, shown := app.name, app.score, app.Shown();
  }

  /** A sign-in whose profile read is refused: the exception leaves the
      loading flag set, so the skeleton stays on screen and the score read
      is never issued. */
  method RefusedReadKeepsSkeleton(email: string) returns (issued: seq<string>, shown: Section)
    requires ValidPath(SanitizeEmail(email))
    ensures issued == [UsersPath(SanitizeEmail(email))] && shown == Skeleton
  {
    var key := SanitizeEmail(email);
    var db := Database(map[], map[key := 42], {UsersPath(key)});
    var app := new App();
    var completion;
    ghost var suspended;
    issued, completion, suspended := app.OnAuthStateChanged(Some(User("uid-1", Some(email))), db);
    shown := app.Shown();
  }

  /** A sign-in whose email holds a `#`: the key keeps it, `ref` refuses
      the `users/` path before any read is issued, and the skeleton stays. */
  method RefusedPathKeepsSkeleton(email: string, db: Database) returns (issued: seq<string>, shown: Section)
    requires '#' in email
    ensures issued == [] && shown == Skeleton
  {
    var app := new App();
    var completion;
    ghost var suspended;
    KeyKeepsRefusedChar(email, '#');
    issued, completion, suspended := app.OnAuthStateChanged(Some(User("uid-1", Some(email))), db);
    shown := app.Shown();
  }

  /** A character `ref` refuses, other than `.`, survives into the key, so
      `ref` refuses the key as well. */
  lemma KeyKeepsRefusedChar(email: string, c: char)
    requires c in email && c != '.' && !PathChar(c)
    ensures !ValidPath(SanitizeEmail(email))
  {
    var key := SanitizeEmail(email);
    SanitizeIsEscapeEach(email);
    EscapeEachKeeps(email, c);
    var i :| 0 <= i < |key| && key[i] == c;
  }
}
