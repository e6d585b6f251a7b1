/**
 * Properties that span the handlers: a token from login passes the guard
 * as the user who logged in, a freshly registered user can log in, and in
 * a short session against the task table a task created with a title only
 * gets the defaults and is listed, while another user can neither see nor
 * delete it.
 */
module Flows {
  import opened Common
  import opened Js
  import opened Jwt
  import opened AuthGuard
  import opened AuthService
  import opened TaskModel
  import opened TaskOrder
  import opened TaskStore

  /**
   * When verification returns the claims a token was signed with, the token
   * from a successful login lets the bearer through as that user.
   */
  lemma LoginTokenPassesGuard(users: seq<User>, body: LoginBody, compare: (string, string) -> bool,
                              sign: Claims -> string, verify: string -> Verification)
    requires forall c :: verify(sign(c)) == Verified(c)
    requires Login(users, body, compare, sign).Ok?
    requires ' ' !in Login(users, body, compare, sign).value.token
    ensures var s := Login(users, body, compare, sign).value;
      Authenticate(Some("Bearer " + s.token), verify) == Next(Identity(s.user.id, s.user.username, s.user.email))
  {
  }

  /** Right after registration, logging in with the same email and password succeeds when the hash verifies. */
  lemma RegisteredUserCanLogin(users: seq<User>, c: Credentials, hash: string -> string, now: int,
                               compare: (string, string) -> bool, sign: Claims -> string)
    requires WellFormedUsers(users) && !Clash(users, c.username, c.email)
    requires c.email != "" && c.password != ""
    requires compare(c.password, hash(c.password))
    ensures var after := users + [NewUser(users, c, hash, now)];
      Login(after, LoginBody(Given(c.email), Given(c.password)), compare, sign)
        == Ok(SessionOf(NewUser(users, c, hash, now), sign))
  {
    var u := NewUser(users, c, hash, now);
    var after := users + [u];
    AppendKeepsWellFormed(users, c, hash, now);
    assert after[|users|] == u;
    LoginDecidedByCompare(after, |users|, c.password, compare, sign);
  }

  /**
   * One user's session: a task created with a title only gets the defaults
   * and is listed; another user can neither see nor delete it.
   */
  method OwnerScopedSession(now: int)
  {
    var table := new TaskTable();
    var alice, bob := 1, 2;
    var body := TaskBody(Given("buy milk"), Absent, Absent, Absent, Absent);
    var created := table.CreateTask(alice, body, now);
    assert created.Ok?;
    var t := created.value;
    assert t.status == "pending" && t.priority == "medium" && t.id == 1;
    assert table.rows == map[1 := t];

    var count, tasks := table.GetTasks(alice, TaskQuery(None, None, None, None));
    assert Selected(table.rows, alice, TaskQuery(None, None, None, None)) == {t};
    assert multiset(tasks) == multiset{t};
    assert |tasks| == 1 && count == 1;

    var bobCount, bobTasks := table.GetTasks(bob, TaskQuery(None, None, None, None));
    assert Selected(table.rows, bob, TaskQuery(None, None, None, None)) == {} by {
      assert !Matches(t, bob, TaskQuery(None, None, None, None));
    }
    assert |multiset(bobTasks)| == 0;
    assert bobCount == 0;

    var deleted := table.DeleteTask(t.id, bob);
    assert deleted == Err(TaskNotFound) && table.rows == map[1 := t];
    deleted := table.DeleteTask(t.id, alice);
    assert deleted.Ok? && table.rows == map[];
  }
}
