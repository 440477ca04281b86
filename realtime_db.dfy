/**
 The two records the page reads from the realtime database, `users/<key>`
 and `scores/<key>`, and the outcome of one `get` of either of them.
 */
module RealtimeDb {
  import opened Wrappers

  /** A value stored under `users/<key>`: a bare name string, an object
      whose `name` property is a string or missing, or any other JSON shape
      (number, boolean, array ...). */
  datatype ProfileValue =
    | NameString(text: string)
    | ProfileObject(name: Option<string>)
    | OtherValue

  /** A resolved or rejected `get`: the snapshot either exists and carries a
      value, does not exist, or the promise rejects (for instance when the
      database's security rules refuse the read). */
  datatype Read<T> = Found(val: T) | Missing | Rejected

  /** The database as this page sees it: the two record maps, keyed by the
      storage key, and the set of paths whose read is refused. */
  datatype Database = Database(
    users: map<string, ProfileValue>,
    scores: map<string, int>,
    refused: set<string>)

  /** A character `ref` accepts in a path: not one of `[ ] . # $` and not an
      ASCII control character. */
  predicate PathChar(c: char)
  {
    c !in "[].#$" && !(c as int < 32 || c as int == 127)
  }

  /** `ref(db, path)` throws on a path holding a character it refuses. */
  predicate ValidPath(p: string)
  {
    forall i :: 0 <= i < |p| ==> PathChar(p[i])
  }

  function UsersPath(key: string): string { "users/" + key }

  function ScoresPath(key: string): string { "scores/" + key }

  /** `await get(ref(db, "users/" + key))`. */
  function GetProfile(db: Database, key: string): Read<ProfileValue>
  {
    if UsersPath(key) in db.refused then Rejected
    else if key in db.users then Found(db.users[key])
    else Missing
  }

  /** `await get(ref(db, "scores/" + key))`. */
  function GetScore(db: Database, key: string): Read<int>
  {
    if ScoresPath(key) in db.refused then Rejected
    else if key in db.scores then Found(db.scores[key])
    else Missing
  }

  /** Both record paths built from a key are accepted by `ref` exactly when
      the key itself holds no refused character. */
  lemma RecordPathsValid(key: string)
    ensures ValidPath(UsersPath(key)) <==> ValidPath(key)
    ensures ValidPath(ScoresPath(key)) <==> ValidPath(key)
  {
    var u, s := UsersPath(key), ScoresPath(key);
    assert forall i :: 0 <= i < |key| ==> u[i + 6] == key[i] && s[i + 7] == key[i];
    assert forall i :: 0 <= i < 6 ==> PathChar(u[i]);
    assert forall i :: 0 <= i < 7 ==> PathChar(s[i]);
    if ValidPath(key) {
      forall i | 6 <= i < |u| ensures PathChar(u[i]) {
        assert u[i] == key[i - 6];
      }
      forall i | 7 <= i < |s| ensures PathChar(s[i]) {
        assert s[i] == key[i - 7];
      }
    }
  }
}
