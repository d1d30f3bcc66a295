/**
  The question-creation handler and the part of the database it touches: a user
  table (email to user id), a tag vocabulary (tag name to tag id) and the list of
  questions. Creating a question links it to one tag per requested tag name,
  reusing the tag row with that exact name or creating it ("connect or create").
*/
module QuestionStore {
  import opened Common

  type Id = nat

  /** A tag row: identity and its unique, case-sensitive name. */
  datatype Tag = Tag(id: Id, name: string)

  /** A question row with its tag links, in the order they were requested. */
  datatype Question = Question(
    id: Id,
    title: string,
    description: string,
    userId: Id,
    tags: seq<Tag>,
    createdAt: int,
    updatedAt: int)

  // ---- the tag vocabulary ----

  /** The tag table: name to id, and the id the next created tag receives. */
  datatype TagTable = TagTable(byName: map<string, Id>, nextId: Id) {
    /** Every id was handed out already, and no two names share an id. */
    ghost predicate Valid() {
      && (forall n :: n in byName ==> byName[n] < nextId)
      && (forall a, b :: a in byName && b in byName && a != b ==> byName[a] != byName[b])
    }
  }

  /** One connect-or-create: reuse the row named `name`, or create it with a fresh id. */
  function ConnectOrCreate(t: TagTable, name: string): (r: (TagTable, Tag))
    ensures r.1.name == name && name in r.0.byName && r.0.byName[name] == r.1.id
    ensures name in t.byName ==> r.0 == t
    ensures name !in t.byName ==> r.1.id == t.nextId && r.0.nextId == t.nextId + 1
    ensures r.0.byName.Keys == t.byName.Keys + {name}
    ensures forall n :: n in t.byName ==> r.0.byName[n] == t.byName[n]
  {
    if name in t.byName then (t, Tag(t.byName[name], name))
    else (TagTable(t.byName[name := t.nextId], t.nextId + 1), Tag(t.nextId, name))
  }

  /**
    Connect-or-create for every requested name, in order: the final table and
    one link per name. Rows that existed keep their ids, nothing is removed,
    every requested name ends up in the table, and the link for `names[k]`
    points at that name's row.
  */
  function ConnectOrCreateAll(t: TagTable, names: seq<string>): (r: (TagTable, seq<Tag>))
    ensures |r.1| == |names|
    ensures forall k :: 0 <= k < |names| ==>
      r.1[k].name == names[k] && names[k] in r.0.byName && r.0.byName[names[k]] == r.1[k].id
    ensures forall n :: n in t.byName ==> n in r.0.byName && r.0.byName[n] == t.byName[n]
    ensures forall n :: n in r.0.byName ==> n in t.byName || n in names
    ensures t.nextId <= r.0.nextId
    decreases |names|
  {
    if names == [] then (t, [])
    else
      var prev := ConnectOrCreateAll(t, names[..|names| - 1]);
      var last := ConnectOrCreate(prev.0, names[|names| - 1]);
      assert forall n :: n in prev.0.byName ==> n in t.byName || n in names by {
        forall n | n in prev.0.byName && n !in t.byName ensures n in names {
          var k :| 0 <= k < |names| - 1 && names[..|names| - 1][k] == n;
          assert names[k] == n;
        }
      }
      (last.0, prev.1 + [last.1])
  }

  /** A valid table stays valid through one connect-or-create. */
  lemma ConnectOrCreateValid(t: TagTable, name: string)
    requires t.Valid()
    ensures ConnectOrCreate(t, name).0.Valid()
  {
  }

  /** A valid table stays valid through a whole request's tags. */
  lemma {:induction false} ConnectOrCreateAllValid(t: TagTable, names: seq<string>)
    requires t.Valid()
    ensures ConnectOrCreateAll(t, names).0.Valid()
    decreases |names|
  {
    if names != [] {
      var prev := ConnectOrCreateAll(t, names[..|names| - 1]);
      ConnectOrCreateAllValid(t, names[..|names| - 1]);
      ConnectOrCreateValid(prev.0, names[|names| - 1]);
    }
  }

  /** When every requested name already has a row, nothing is created and each link names that row. */
  lemma {:induction false} AllPresentNoChange(t: TagTable, names: seq<string>)
    requires forall k :: 0 <= k < |names| ==> names[k] in t.byName
    ensures ConnectOrCreateAll(t, names).0 == t
    ensures forall k :: 0 <= k < |names| ==> ConnectOrCreateAll(t, names).1[k] == Tag(t.byName[names[k]], names[k])
    decreases |names|
  {
    if names != [] {
      AllPresentNoChange(t, names[..|names| - 1]);
    }
  }

  /** Repeating a request's tags against the table it produced changes nothing and yields the same links. */
  lemma ConnectOrCreateAllIdempotent(t: TagTable, names: seq<string>)
    ensures var r := ConnectOrCreateAll(t, names);
      ConnectOrCreateAll(r.0, names) == r
  {
    var r := ConnectOrCreateAll(t, names);
    AllPresentNoChange(r.0, names);
    var again := ConnectOrCreateAll(r.0, names);
    assert forall k :: 0 <= k < |names| ==> again.1[k] == r.1[k];
    assert again.0 == r.0 && again.1 == r.1;
  }

  /**
    Two requests that share a tag name link to one and the same tag row: the
    second request reuses the identity the first one created or found.
  */
  lemma SharedTagOneRow(t: TagTable, first: seq<string>, second: seq<string>, i: nat, j: nat)
    requires i < |first| && j < |second| && first[i] == second[j]
    ensures var r1 := ConnectOrCreateAll(t, first);
      var r2 := ConnectOrCreateAll(r1.0, second);
      r2.1[j].id == r1.1[i].id && r2.0.byName[first[i]] == r1.1[i].id
  {
  }

  /** Every link of every question names a row of the tag table, with that row's id. */
  ghost predicate LinksResolve(questions: seq<Question>, t: TagTable) {
    forall q, g :: q in questions && g in q.tags ==> g.name in t.byName && t.byName[g.name] == g.id
  }

  // ---- the request ----

  /** The signed-in user of a session, if the session has one; the email may be missing. */
  datatype SessionUser = SessionUser(email: Option<string>)
  datatype Session = Session(user: Option<SessionUser>)

  /**
    The JSON body as the handler destructures it: `title` and `description`
    when they are strings, and `tags` when it is an array (of names).
  */
  datatype Body = Body(title: Option<string>, description: Option<string>, tags: Option<seq<string>>)

  /** JavaScript truthiness of an optional string: present and non-empty. */
  predicate Truthy(s: Option<string>) {
    s.Some? && s.value != ""
  }

  /** The email of the session's user, when the session, its user and a non-empty email are all there. */
  function SessionEmail(session: Option<Session>): (e: Option<string>)
    ensures e.Some? ==> e.value != ""
    ensures e.Some? <==> session.Some? && session.value.user.Some? && Truthy(session.value.user.value.email)
  {
    if session.Some? && session.value.user.Some? && Truthy(session.value.user.value.email) then
      session.value.user.value.email
    else
      None
  }

  /** Outcome of the checks before anything is written. */
  datatype Check =
    | Reject(status: nat, message: string)
    | Accept(userId: Id, title: string, description: string, tagNames: seq<string>)

  const NotAuthenticated := "Not Authenticated"
  const MissingFields := "Missing required fields: title, description or tags"
  const UserNotFound := "User not found"
  const Created := "Question created successfully"

  /**
    The handler's checks, in order: session (401), body (400), user row (404).
    A request that passes them carries a non-empty title and description, the
    tag names as sent, and the id of the user whose email the session holds.
  */
  function CheckPost(session: Option<Session>, body: Body, users: map<string, Id>): (c: Check)
    ensures c.Reject? ==> c.status == 401 || c.status == 400 || c.status == 404
    ensures c.Reject? && c.status == 401 <==> SessionEmail(session).None?
    ensures c.Accept? ==>
      && Some(c.title) == body.title && c.title != ""
      && Some(c.description) == body.description && c.description != ""
      && Some(c.tagNames) == body.tags
      && SessionEmail(session).Some? && SessionEmail(session).value in users
      && users[SessionEmail(session).value] == c.userId
  {
    var email := SessionEmail(session);
    if email.None? then
      Reject(401, NotAuthenticated)
    else if !Truthy(body.title) || !Truthy(body.description) || body.tags.None? then
      Reject(400, MissingFields)
    else if email.value !in users then
      Reject(404, UserNotFound)
    else
      Accept(users[email.value], body.title.value, body.description.value, body.tags.value)
  }

  /** Without a signed-in user the answer is 401 whatever the body and the user table hold. */
  lemma UnauthenticatedIgnoresBody(session: Option<Session>, b1: Body, b2: Body, u1: map<string, Id>, u2: map<string, Id>)
    requires SessionEmail(session).None?
    ensures CheckPost(session, b1, u1) == CheckPost(session, b2, u2) == Reject(401, NotAuthenticated)
  {
  }

  /**
    A signed-in request is refused with 400 exactly when the title or the
    description is missing or empty, or the tags are not an array; an empty
    array of tags is accepted.
  */
  lemma BadBodyIs400(session: Option<Session>, body: Body, users: map<string, Id>)
    requires SessionEmail(session).Some?
    ensures CheckPost(session, body, users) == Reject(400, MissingFields)
      <==> !Truthy(body.title) || !Truthy(body.description) || body.tags.None?
    ensures body.tags == Some([]) && Truthy(body.title) && Truthy(body.description) ==>
      CheckPost(session, body, users) != Reject(400, MissingFields)
  {
  }

  /** A signed-in request with a good body gets 404 exactly when no user row has the session's email. */
  lemma UnknownUserIs404(session: Option<Session>, body: Body, users: map<string, Id>)
    requires SessionEmail(session).Some?
    requires Truthy(body.title) && Truthy(body.description) && body.tags.Some?
    ensures CheckPost(session, body, users).Reject? <==> SessionEmail(session).value !in users
    ensures CheckPost(session, body, users).Reject? ==> CheckPost(session, body, users).status == 404
  {
  }

  // ---- the store ----

  class Store {
    /** User rows, by email (the column `findUnique` looks them up by). */
    var users: map<string, Id>
    var tags: TagTable
    var questions: seq<Question>
    var nextQuestionId: Id

    /** The tag table is consistent, every link resolves, and question ids are distinct and handed out. */
    ghost predicate Valid()
      reads this
    {
      && tags.Valid()
      && LinksResolve(questions, tags)
      && (forall i :: 0 <= i < |questions| ==> questions[i].id < nextQuestionId)
      && (forall i, j :: 0 <= i < j < |questions| ==> questions[i].id != questions[j].id)
    }

    constructor (users: map<string, Id>)
      ensures Valid()
      ensures this.users == users && tags == TagTable(map[], 0) && questions == []
    {
      this.users := users;
      tags := TagTable(map[], 0);
      questions := [];
      nextQuestionId := 0;
    }

    /**
      Connect-or-create for each name in turn, collecting the links: the tag
      table afterwards and the links are those of `ConnectOrCreateAll`.
    */
    method ConnectOrCreateTags(names: seq<string>) returns (links: seq<Tag>)
      modifies this`tags
      ensures (tags, links) == ConnectOrCreateAll(old(tags), names)
    {
      links := [];
      var i := 0;
      while i < |names|
        invariant 0 <= i <= |names|
        invariant (tags, links) == ConnectOrCreateAll(old(tags), names[..i])
      {
        assert names[..i + 1][..i] == names[..i];
        var step := ConnectOrCreate(tags, names[i]);
        tags := step.0;
        links := links + [step.1];
        i := i + 1;
      }
      assert names[..i] == names;
    }

    /**
      POST /api/questions. A refused request changes nothing and answers the
      status of the failed check. An accepted one answers 201 and appends
      exactly one question: the requested title and description, the found
      user's id, a fresh id, `now` as both timestamps, and one link per
      requested tag name, in order, each pointing at the (reused or created)
      row of that name. The user table never changes.
    */
    method Post(session: Option<Session>, body: Body, now: int)
      returns (status: nat, message: string, created: Option<Question>)
      requires Valid()
      modifies this`tags, this`questions, this`nextQuestionId
      ensures Valid()
      ensures var c := CheckPost(session, body, users);
        && (c.Reject? ==>
              && status == c.status && message == c.message && created.None?
              && tags == old(tags) && questions == old(questions) && nextQuestionId == old(nextQuestionId))
        && (c.Accept? ==>
              && status == 201 && message == Created
              && created == Some(Question(old(nextQuestionId), c.title, c.description, c.userId,
                                          ConnectOrCreateAll(old(tags), c.tagNames).1, now, now))
              && tags == ConnectOrCreateAll(old(tags), c.tagNames).0
              && questions == old(questions) + [created.value])
    {
      var c := CheckPost(session, body, users);
      if c.Reject? {
        return c.status, c.message, None;
      }
      ghost var before := tags;
      var links := ConnectOrCreateTags(c.tagNames);
      var q := Question(nextQuestionId, c.title, c.description, c.userId, links, now, now);
      AppendValid(questions, before, c.tagNames, q, nextQuestionId);
      questions := questions + [q];
      nextQuestionId := nextQuestionId + 1;
      return 201, Created, Some(q);
    }
  }

  /** Appending a request's question, with fresh id `next`, keeps the store's invariant. */
  lemma AppendValid(questions: seq<Question>, t: TagTable, names: seq<string>, q: Question, next: Id)
    requires t.Valid() && LinksResolve(questions, t)
    requires forall i :: 0 <= i < |questions| ==> questions[i].id < next
    requires forall i, j :: 0 <= i < j < |questions| ==> questions[i].id != questions[j].id
    requires q.tags == ConnectOrCreateAll(t, names).1 && q.id == next
    ensures var t' := ConnectOrCreateAll(t, names).0;
      var qs := questions + [q];
      && t'.Valid()
      && LinksResolve(qs, t')
      && (forall i :: 0 <= i < |qs| ==> qs[i].id < next + 1)
      && (forall i, j :: 0 <= i < j < |qs| ==> qs[i].id != qs[j].id)
  {
    var t' := ConnectOrCreateAll(t, names).0;
    ConnectOrCreateAllValid(t, names);
    KeptLinksResolve(questions, t, names);
    NewLinksResolve(t, names, q);
    LinksResolveAppend(questions, q, t');
  }

  lemma LinksResolveAppend(questions: seq<Question>, q: Question, t: TagTable)
    requires LinksResolve(questions, t) && LinksResolve([q], t)
    ensures LinksResolve(questions + [q], t)
  {
  }

  /** `t2` keeps every row of `t1`, with its id. */
  ghost predicate Extends(t1: TagTable, t2: TagTable) {
    forall n :: n in t1.byName ==> n in t2.byName && t2.byName[n] == t1.byName[n]
  }

  lemma LinksResolveExtends(questions: seq<Question>, t1: TagTable, t2: TagTable)
    requires LinksResolve(questions, t1) && Extends(t1, t2)
    ensures LinksResolve(questions, t2)
  {
  }

  /** Links that resolved before a request still resolve after it: rows keep their ids. */
  lemma KeptLinksResolve(questions: seq<Question>, t: TagTable, names: seq<string>)
    requires LinksResolve(questions, t)
    ensures LinksResolve(questions, ConnectOrCreateAll(t, names).0)
  {
    LinksResolveExtends(questions, t, ConnectOrCreateAll(t, names).0);
  }

  /** The links a request creates resolve in the table the request leaves behind. */
  lemma NewLinksResolve(t: TagTable, names: seq<string>, q: Question)
    requires q.tags == ConnectOrCreateAll(t, names).1
    ensures LinksResolve([q], ConnectOrCreateAll(t, names).0)
  {
  }

  /**
    The store after a successful POST: every requested tag name has a row,
    pre-existing rows keep their ids, no row is removed, and the new question's
    links are the rows of the requested names, in request order.
  */
  lemma PostTagsOutcome(t: TagTable, names: seq<string>)
    requires t.Valid()
    ensures var (t', links) := ConnectOrCreateAll(t, names);
      && t'.Valid()
      && (forall n :: n in names ==> n in t'.byName)
      && (forall n :: n in t.byName ==> n in t'.byName && t'.byName[n] == t.byName[n])
      && t'.byName.Keys == t.byName.Keys + set n | n in names
      && |links| == |names|
      && (forall k :: 0 <= k < |names| ==> links[k] == Tag(t'.byName[names[k]], names[k]))
  {
  }
}
