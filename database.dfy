/** The account table of database.py: a map from user name to a record of
    password, highest level reached, difficulty and score, with registration,
    login, the progress and score updates, and the top-seven leaderboard.
    The JSON file is the map; its key order, which the leaderboard's stable
    sort keeps for equal scores, is the order the names were registered in. */
module Accounts {
  import opened Sorting

  datatype Record = Record(password: string, maxLevel: int, difficulty: int, score: int)

  /** The record a new account starts with. */
  function NewRecord(password: string): Record
  {
    Record(password, 1, 1, 0)
  }

  /** The answer of login: the message of a failure, or the stored record. */
  datatype LoginResult = UserNotFound | WrongPassword | LoggedIn(record: Record)

  function LoginMessage(r: LoginResult): string
  {
    match r
    case UserNotFound => "Username not found!"
    case WrongPassword => "Incorrect password!"
    case LoggedIn(_) => ""
  }

  const DEFAULT_LEVEL: int := 1
  const DEFAULT_DIFFICULTY: int := 1
  const DEFAULT_SCORE: int := 0

  /** How many entries the leaderboard shows. */
  const BOARD_SIZE: nat := 7

  type Entry = (string, int)

  predicate NoRepeats(s: seq<string>)
  {
    forall i, j :: 0 <= i < j < |s| ==> s[i] != s[j]
  }

  /** The names in file order, each with its score. */
  function Entries(order: seq<string>, users: map<string, Record>): (es: seq<Entry>)
    requires forall k :: 0 <= k < |order| ==> order[k] in users
    ensures |es| == |order|
  {
    seq(|order|, k requires 0 <= k < |order| => (order[k], users[order[k]].score))
  }

  predicate Ranked(e: Entry)
  {
    e.1 >= 0
  }

  predicate ScoreAtLeast(a: Entry, b: Entry)
  {
    a.1 >= b.1
  }

  lemma ScoreOrder()
    ensures TotalPreorder(ScoreAtLeast)
  {
  }

  /** get_leaderboard: the entries with a score of at least 0, stably sorted
      by score from high to low, cut to the first seven. */
  function Leaderboard(order: seq<string>, users: map<string, Record>): seq<Entry>
    requires forall k :: 0 <= k < |order| ==> order[k] in users
  {
    var sorted := SortBy(Filter(Entries(order, users), Ranked), ScoreAtLeast);
    if |sorted| <= BOARD_SIZE then sorted else sorted[..BOARD_SIZE]
  }

  lemma EntriesMembers(order: seq<string>, users: map<string, Record>, e: Entry)
    requires forall k :: 0 <= k < |order| ==> order[k] in users
    requires forall u :: u in users ==> u in order
    ensures e in Entries(order, users) <==> e.0 in users && e.1 == users[e.0].score
  {
    if e.0 in users && e.1 == users[e.0].score {
      var k :| 0 <= k < |order| && order[k] == e.0;
      assert Entries(order, users)[k] == e;
    }
  }

  /** The leaderboard holds at most seven entries, each a user with their own
      non-negative score, from the highest score down. */
  lemma LeaderboardShape(order: seq<string>, users: map<string, Record>)
    requires forall k :: 0 <= k < |order| ==> order[k] in users
    requires forall u :: u in users ==> u in order
    ensures var b := Leaderboard(order, users);
            |b| <= BOARD_SIZE &&
            (forall k :: 0 <= k < |b| ==> b[k].0 in users && b[k].1 == users[b[k].0].score && b[k].1 >= 0) &&
            SortedBy(b, ScoreAtLeast)
  {
    var es := Entries(order, users);
    var f := Filter(es, Ranked);
    var sorted := SortBy(f, ScoreAtLeast);
    var b := Leaderboard(order, users);
    assert b == sorted[..|b|];
    assert SortedBy(sorted, ScoreAtLeast) by {
      ScoreOrder();
      SortBySorted(f, ScoreAtLeast);
    }
    forall k | 0 <= k < |b|
      ensures b[k].0 in users && b[k].1 == users[b[k].0].score && b[k].1 >= 0
    {
      assert b[k] in multiset(sorted);
      FilterMembers(es, Ranked, b[k]);
      EntriesMembers(order, users, b[k]);
    }
  }

  /** A user with a score of at least 0 is left off the leaderboard only
      when seven users on it score at least as much. */
  lemma LeaderboardComplete(order: seq<string>, users: map<string, Record>, u: string)
    requires forall k :: 0 <= k < |order| ==> order[k] in users
    requires forall u :: u in users ==> u in order
    requires u in users && users[u].score >= 0
    ensures var b := Leaderboard(order, users);
            (u, users[u].score) !in b ==>
              |b| == BOARD_SIZE && forall k :: 0 <= k < |b| ==> b[k].1 >= users[u].score
  {
    var es := Entries(order, users);
    var f := Filter(es, Ranked);
    var sorted := SortBy(f, ScoreAtLeast);
    var b := Leaderboard(order, users);
    var e := (u, users[u].score);
    assert b == sorted[..|b|];
    assert SortedBy(sorted, ScoreAtLeast) by {
      ScoreOrder();
      SortBySorted(f, ScoreAtLeast);
    }
    EntriesMembers(order, users, e);
    FilterMembers(es, Ranked, e);
    assert e in multiset(sorted);
    var j :| 0 <= j < |sorted| && sorted[j] == e;
    if e !in b {
      assert j >= |b|;
      forall k | 0 <= k < |b|
        ensures b[k].1 >= users[u].score
      {
        assert ScoreAtLeast(sorted[k], sorted[j]);
      }
    }
  }

  /** Users with equal scores keep their file order. */
  lemma LeaderboardStable(order: seq<string>, users: map<string, Record>, y: Entry)
    requires forall k :: 0 <= k < |order| ==> order[k] in users
    ensures var f := Filter(Entries(order, users), Ranked);
            Filter(SortBy(f, ScoreAtLeast), z => Ties(ScoreAtLeast, z, y)) == Filter(f, z => Ties(ScoreAtLeast, z, y))
  {
    ScoreOrder();
    SortByStable(Filter(Entries(order, users), Ranked), ScoreAtLeast, y);
  }

  class UserManager {
    /** The table the JSON file holds. */
    var users: map<string, Record>
    /** The user names in the order of the file's keys. */
    var order: seq<string>

    /** Every name is listed once, and the list names exactly the users. */
    predicate Valid()
      reads this
    {
      NoRepeats(order) &&
      (forall k :: 0 <= k < |order| ==> order[k] in users) &&
      (forall u :: u in users ==> u in order)
    }

    /** A manager over a file that holds no accounts yet. */
    constructor ()
      ensures Valid() && users == map[] && order == []
    {
      users := map[];
      order := [];
    }

    /** register: a taken name fails and changes nothing; a new name gets
        the starting record and goes last in the file. */
    method Register(username: string, password: string) returns (ok: bool, message: string)
      requires Valid()
      modifies this
      ensures Valid()
      ensures ok <==> username !in old(users)
      ensures !ok ==> users == old(users) && order == old(order) && message == "Username already exists!"
      ensures ok ==> users == old(users)[username := NewRecord(password)] && order == old(order) + [username] &&
                     message == "Registration successful!"
    {
      if username in users {
        return false, "Username already exists!";
      }
      users := users[username := NewRecord(password)];
      order := order + [username];
      return true, "Registration successful!";
    }

    /** login: an unknown name, a wrong password, or the stored record. */
    method Login(username: string, password: string) returns (r: LoginResult)
      ensures username !in users ==> r == UserNotFound
      ensures username in users && users[username].password != password ==> r == WrongPassword
      ensures username in users && users[username].password == password ==> r == LoggedIn(users[username])
    {
      if username !in users {
        return UserNotFound;
      }
      if users[username].password != password {
        return WrongPassword;
      }
      return LoggedIn(users[username]);
    }

    /** get_level: the highest level reached, 1 for an unknown name. */
    function GetLevel(username: string): (level: int)
      reads this
      ensures username !in users ==> level == DEFAULT_LEVEL
      ensures username in users ==> level == users[username].maxLevel
    {
      if username in users then users[username].maxLevel else DEFAULT_LEVEL
    }

    /** get_difficulty: the stored difficulty, 1 for an unknown name. */
    function GetDifficulty(username: string): (difficulty: int)
      reads this
      ensures username !in users ==> difficulty == DEFAULT_DIFFICULTY
      ensures username in users ==> difficulty == users[username].difficulty
    {
      if username in users then users[username].difficulty else DEFAULT_DIFFICULTY
    }

    /** get_score: the stored score, 0 for an unknown name. */
    function GetScore(username: string): (score: int)
      reads this
      ensures username !in users ==> score == DEFAULT_SCORE
      ensures username in users ==> score == users[username].score
    {
      if username in users then users[username].score else DEFAULT_SCORE
    }

    /** update_difficulty: sets the difficulty of a known user; nothing else changes. */
    method UpdateDifficulty(username: string, difficulty: int)
      requires Valid()
      modifies this
      ensures Valid() && order == old(order)
      ensures users == if username in old(users) then old(users)[username := old(users)[username].(difficulty := difficulty)]
                       else old(users)
    {
      if username in users {
        users := users[username := users[username].(difficulty := difficulty)];
      }
    }

    /** update_progress: raises the highest level of a known user to `level`
        when that is higher, and never lowers it. */
    method UpdateProgress(username: string, level: int)
      requires Valid()
      modifies this
      ensures Valid() && order == old(order)
      ensures users.Keys == old(users).Keys
      ensures forall u :: u in users ==> users[u].maxLevel >= old(users)[u].maxLevel
      ensures users == if username in old(users) && level > old(users)[username].maxLevel
                       then old(users)[username := old(users)[username].(maxLevel := level)]
                       else old(users)
    {
      if username in users && level > users[username].maxLevel {
        users := users[username := users[username].(maxLevel := level)];
      }
    }

    /** add_score: adds exactly `points` to a known user's score. */
    method AddScore(username: string, points: int)
      requires Valid()
      modifies this
      ensures Valid() && order == old(order)
      ensures username in old(users) ==> GetScore(username) == old(GetScore(username)) + points
      ensures users == if username in old(users) then old(users)[username := old(users)[username].(score := old(users)[username].score + points)]
                       else old(users)
    {
      if username in users {
        users := users[username := users[username].(score := users[username].score + points)];
      }
    }

    /** reset_level: a known user goes back to level 1 and keeps the score. */
    method ResetLevel(username: string)
      requires Valid()
      modifies this
      ensures Valid() && order == old(order)
      ensures username in old(users) ==> GetLevel(username) == DEFAULT_LEVEL && GetScore(username) == old(GetScore(username))
      ensures users == if username in old(users) then old(users)[username := old(users)[username].(maxLevel := DEFAULT_LEVEL)]
                       else old(users)
    {
      if username in users {
        users := users[username := users[username].(maxLevel := DEFAULT_LEVEL)];
      }
    }

    /** get_leaderboard: the entry loop over the file's items, the sort and the cut. */
    method GetLeaderboard() returns (board: seq<Entry>)
      requires Valid()
      ensures board == Leaderboard(order, users)
    {
      var ranked: seq<Entry> := [];
      for k := 0 to |order|
        invariant ranked == Filter(Entries(order, users)[..k], Ranked)
      {
        var e := (order[k], users[order[k]].score);
        assert Entries(order, users)[..k + 1] == Entries(order, users)[..k] + [e];
        FilterSnoc(Entries(order, users)[..k], e, Ranked);
        if e.1 >= 0 {
          ranked := ranked + [e];
        }
      }
      assert Entries(order, users)[..|order|] == Entries(order, users);
      var sorted := SortBy(ranked, ScoreAtLeast);
      board := if |sorted| <= BOARD_SIZE then sorted else sorted[..BOARD_SIZE];
    }
  }
}
