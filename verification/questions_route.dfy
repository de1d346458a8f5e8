/** The questions endpoint. `GET` filters questions by search text, tag and
    author, orders them by one of three keys, returns one page with each
    question's answer count and vote score, and the page arithmetic. `POST`
    creates a question for the signed-in user and counts each of its tags in
    the tag collection, creating tags on first use. */
module QuestionsRoute {
  import opened Base
  import opened Text
  import opened Models
  import opened Sorting
  import opened Paging

  datatype SortOrder = NewestFirst | OldestFirst | MostViewed

  /** The `sort` parameter: `oldest` and `views` have orders of their own;
      `votes`, `newest` and anything else sort newest first. */
  function SortOrderOf(sort: string): (o: SortOrder)
    ensures o == OldestFirst <==> sort == "oldest"
    ensures o == MostViewed <==> sort == "views"
    ensures o == NewestFirst <==> sort != "oldest" && sort != "views"
  {
    if sort == "oldest" then OldestFirst
    else if sort == "views" then MostViewed
    else NewestFirst
  }

  /** The key the database sorts on, largest first (ascending order is the
      negated key). */
  function SortKey(o: SortOrder): Question -> int {
    match o
    case NewestFirst => (q: Question) => q.createdAt
    case OldestFirst => (q: Question) => -q.createdAt
    case MostViewed => (q: Question) => q.views
  }

  /** The order a listing promises, in the question's own fields. */
  ghost predicate InOrder(qs: seq<Question>, o: SortOrder) {
    match o
    case NewestFirst => forall i, j :: 0 <= i < j < |qs| ==> qs[i].createdAt >= qs[j].createdAt
    case OldestFirst => forall i, j :: 0 <= i < j < |qs| ==> qs[i].createdAt <= qs[j].createdAt
    case MostViewed => forall i, j :: 0 <= i < j < |qs| ==> qs[i].views >= qs[j].views
  }

  lemma SortKeyOrder(qs: seq<Question>, o: SortOrder)
    requires SortedDesc(qs, SortKey(o))
    ensures InOrder(qs, o)
  {
    forall i, j | 0 <= i < j < |qs| ensures SortKey(o)(qs[i]) >= SortKey(o)(qs[j]) {
    }
  }

  /** The database query built from the parameters. */
  datatype QuestionQuery = QuestionQuery(search: string, tag: Option<string>, author: Option<Id>)

  /** `findOne({username: author})`. The username path's `trim` setter also
      applies to the value a query compares with, so the author name is
      looked up trimmed. A name that matches no user adds no author
      condition at all. */
  function AuthorId(users: seq<User>, author: string): (r: Option<Id>)
    ensures author == [] ==> r.None?
    ensures r.Some? ==> exists j :: 0 <= j < |users| && users[j].username == Trim(author) && users[j].id == r.value
    ensures r.None? && author != [] ==> forall j :: 0 <= j < |users| ==> users[j].username != Trim(author)
  {
    if author == [] then None
    else match FindFirst(users, (u: User) => u.username == Trim(author))
      case None => None
      case Some(j) => Some(users[j].id)
  }

  /** An empty parameter adds no condition. The route lower-cases the tag,
      and the `$in` value then passes through the tag elements' `trim` and
      `lowercase` setters, so the condition is on the stored form of the
      tag. */
  function BuildQuery(users: seq<User>, search: string, tag: string, author: string): (q: QuestionQuery)
    ensures q.search == search
    ensures q.tag.Some? <==> tag != []
    ensures q.tag.Some? ==> q.tag.value == NormTag(tag)
    ensures q.author == AuthorId(users, author)
  {
    ToLowerIdempotent(tag);
    QuestionQuery(search, if tag == [] then None else Some(NormTag(ToLower(tag))), AuthorId(users, author))
  }

  /** Whether a question satisfies the query. The case-insensitive search
      over title and description is the caller-supplied `searchHit`. */
  predicate Matches(q: Question, query: QuestionQuery, searchHit: (string, Question) -> bool) {
    && (query.search == [] || searchHit(query.search, q))
    && (query.tag.None? || query.tag.value in q.tags)
    && (query.author.None? || q.author == query.author.value)
  }

  function Selected(store: seq<Question>, query: QuestionQuery, searchHit: (string, Question) -> bool): seq<Question> {
    Filter(store, (q: Question) => Matches(q, query, searchHit))
  }

  /** `countDocuments({question: id})` over the answers. */
  function AnswerCount(answers: seq<Answer>, qid: Id): nat {
    |Filter(answers, (a: Answer) => a.question == qid)|
  }

  datatype Summary = Summary(question: Question, answerCount: nat, voteScore: int)

  datatype ListRequest = ListRequest(page: int, limit: int, search: string, tag: string, sort: string, author: string)

  datatype ListReply = ListReply(questions: seq<Summary>, pagination: PageInfo)

  function Summarise(q: Question, answers: seq<Answer>): Summary {
    Summary(q, AnswerCount(answers, q.id), LeanVoteScore(Some(q.votes.upvotes), Some(q.votes.downvotes)))
  }

  function Listed(s: seq<Summary>): (qs: seq<Question>)
    ensures |qs| == |s| && forall k :: 0 <= k < |s| ==> qs[k] == s[k].question
  {
    seq(|s|, k requires 0 <= k < |s| => s[k].question)
  }

  /** `GET`: filter, sort, skip `(page - 1) * limit`, take at most `limit`,
      then add each question's answer count and vote score; `total` counts
      with the same query. */
  function ListQuestions(store: seq<Question>, answers: seq<Answer>, users: seq<User>,
                         req: ListRequest, searchHit: (string, Question) -> bool): (r: ListReply)
    requires req.page >= 1 && req.limit >= 1
    ensures var query := BuildQuery(users, req.search, req.tag, req.author);
      var sorted := SortDesc(Selected(store, query, searchHit), SortKey(SortOrderOf(req.sort)));
      && |r.questions| == Min(req.limit, Max(0, |sorted| - Skip(req.page, req.limit)))
      && (forall k :: 0 <= k < |r.questions| ==>
            && Skip(req.page, req.limit) + k < |sorted|
            && r.questions[k].question == sorted[Skip(req.page, req.limit) + k]
            && r.questions[k].question in store
            && Matches(r.questions[k].question, query, searchHit)
            && r.questions[k].voteScore
               == |r.questions[k].question.votes.upvotes| - |r.questions[k].question.votes.downvotes|
            && r.questions[k].answerCount == AnswerCount(answers, r.questions[k].question.id))
      && InOrder(Listed(r.questions), SortOrderOf(req.sort))
      && r.pagination == Paginate(req.page, req.limit, |Selected(store, query, searchHit)|)
  {
    var query := BuildQuery(users, req.search, req.tag, req.author);
    var o := SortOrderOf(req.sort);
    var skip := Skip(req.page, req.limit);
    SummariesFacts(store, answers, query, searchHit, o, skip, req.limit);
    var summaries := Summaries(Window(SortDesc(Selected(store, query, searchHit), SortKey(o)), skip, req.limit), answers);
    ListReply(summaries, Paginate(req.page, req.limit, |Selected(store, query, searchHit)|))
  }

  /** Each listed question with its answer count and vote score. */
  function Summaries(qs: seq<Question>, answers: seq<Answer>): (s: seq<Summary>)
    ensures |s| == |qs| && forall k :: 0 <= k < |qs| ==> s[k] == Summarise(qs[k], answers)
  {
    seq(|qs|, k requires 0 <= k < |qs| => Summarise(qs[k], answers))
  }

  /** What one page of summaries holds, for any query and order. */
  lemma SummariesFacts(store: seq<Question>, answers: seq<Answer>, query: QuestionQuery,
                       searchHit: (string, Question) -> bool, o: SortOrder, skip: nat, limit: nat)
    ensures var sorted := SortDesc(Selected(store, query, searchHit), SortKey(o));
      var s := Summaries(Window(sorted, skip, limit), answers);
      && |s| == Min(limit, Max(0, |sorted| - skip))
      && (forall k :: 0 <= k < |s| ==>
            && skip + k < |sorted|
            && s[k].question == sorted[skip + k]
            && s[k].question in store
            && Matches(s[k].question, query, searchHit)
            && s[k].voteScore == |s[k].question.votes.upvotes| - |s[k].question.votes.downvotes|
            && s[k].answerCount == AnswerCount(answers, s[k].question.id))
      && InOrder(Listed(s), o)
  {
    var selected := Selected(store, query, searchHit);
    var sorted := SortDesc(selected, SortKey(o));
    var window := Window(sorted, skip, limit);
    var s := Summaries(window, answers);
    WindowOfSorted(selected, sorted, SortKey(o), skip, limit);
    assert Listed(s) == window;
    SortKeyOrder(window, o);
    SelectedFacts(store, query, searchHit);
  }

  lemma SelectedFacts(store: seq<Question>, query: QuestionQuery, searchHit: (string, Question) -> bool)
    ensures forall q :: q in Selected(store, query, searchHit) ==> q in store && Matches(q, query, searchHit)
  {
    var s := Selected(store, query, searchHit);
    forall q | q in s ensures q in store && Matches(q, query, searchHit) {
      var k :| 0 <= k < |s| && s[k] == q;
    }
  }

  /** `sort=votes` does not sort by votes: it lists exactly what the default
      order lists. */
  lemma VotesSortIsNewest(store: seq<Question>, answers: seq<Answer>, users: seq<User>,
                          req: ListRequest, searchHit: (string, Question) -> bool)
    requires req.page >= 1 && req.limit >= 1
    ensures ListQuestions(store, answers, users, req.(sort := "votes"), searchHit)
         == ListQuestions(store, answers, users, req.(sort := "newest"), searchHit)
  {
    assert SortOrderOf("votes") == SortOrderOf("newest");
  }

  /** An author name that, trimmed, no user has is ignored rather than
      matching nothing. */
  lemma UnknownAuthorIgnored(store: seq<Question>, answers: seq<Answer>, users: seq<User>,
                             req: ListRequest, searchHit: (string, Question) -> bool)
    requires req.page >= 1 && req.limit >= 1
    requires forall j :: 0 <= j < |users| ==> users[j].username != Trim(req.author)
    ensures ListQuestions(store, answers, users, req, searchHit)
         == ListQuestions(store, answers, users, req.(author := ""), searchHit)
  {
    assert AuthorId(users, req.author) == None;
  }

  /** The tag filter ignores the case of the parameter. */
  lemma TagFilterIgnoresCase(store: seq<Question>, answers: seq<Answer>, users: seq<User>,
                             req: ListRequest, searchHit: (string, Question) -> bool)
    requires req.page >= 1 && req.limit >= 1
    ensures ListQuestions(store, answers, users, req, searchHit)
         == ListQuestions(store, answers, users, req.(tag := ToLower(req.tag)), searchHit)
  {
    ToLowerIdempotent(req.tag);
    assert BuildQuery(users, req.search, req.tag, req.author)
        == BuildQuery(users, req.search, ToLower(req.tag), req.author);
  }

  /** The tag filter compares the stored form of the tag: any parameter
      lists what its trimmed, lower-cased form lists, unless that form is
      empty (an empty parameter adds no condition at all). */
  lemma TagFilterUsesStoredForm(store: seq<Question>, answers: seq<Answer>, users: seq<User>,
                                req: ListRequest, searchHit: (string, Question) -> bool)
    requires req.page >= 1 && req.limit >= 1 && NormTag(req.tag) != []
    ensures ListQuestions(store, answers, users, req, searchHit)
         == ListQuestions(store, answers, users, req.(tag := NormTag(req.tag)), searchHit)
  {
    NormTagIdempotent(req.tag);
    assert BuildQuery(users, req.search, req.tag, req.author)
        == BuildQuery(users, req.search, NormTag(req.tag), req.author);
  }

  /** Space around the author name is ignored, unless nothing else is
      left. */
  lemma AuthorLookedUpTrimmed(store: seq<Question>, answers: seq<Answer>, users: seq<User>,
                              req: ListRequest, searchHit: (string, Question) -> bool)
    requires req.page >= 1 && req.limit >= 1 && Trim(req.author) != []
    ensures ListQuestions(store, answers, users, req, searchHit)
         == ListQuestions(store, answers, users, req.(author := Trim(req.author)), searchHit)
  {
    TrimIdempotent(req.author);
    assert BuildQuery(users, req.search, req.tag, req.author)
        == BuildQuery(users, req.search, req.tag, Trim(req.author));
  }

  /** The question at position `idx` of the ordered selection is listed on
      page `PageOf(idx, limit)`, a page within range. The database breaks
      ties between equal sort keys afresh on every query, so this is
      stated for selections whose keys are distinct: their order is then
      the only one (`SortDescIsTheOnlyOrder`), and paging through the
      listing shows every matching question once. */
  lemma ListedOnItsPage(store: seq<Question>, answers: seq<Answer>, users: seq<User>,
                        req: ListRequest, searchHit: (string, Question) -> bool, idx: nat)
    requires req.limit >= 1
    requires idx < |Selected(store, BuildQuery(users, req.search, req.tag, req.author), searchHit)|
    requires DistinctKeys(multiset(Selected(store, BuildQuery(users, req.search, req.tag, req.author), searchHit)),
                          SortKey(SortOrderOf(req.sort)))
    ensures var query := BuildQuery(users, req.search, req.tag, req.author);
      var sorted := SortDesc(Selected(store, query, searchHit), SortKey(SortOrderOf(req.sort)));
      var page := PageOf(idx, req.limit);
      var listed := ListQuestions(store, answers, users, req.(page := page), searchHit).questions;
      && page <= PageCount(|sorted|, req.limit)
      && 0 <= idx - Skip(page, req.limit) < |listed|
      && listed[idx - Skip(page, req.limit)].question == sorted[idx]
  {
    var query := BuildQuery(users, req.search, req.tag, req.author);
    var sorted := SortDesc(Selected(store, query, searchHit), SortKey(SortOrderOf(req.sort)));
    WindowOfPageHolds(sorted, req.limit, idx);
  }

  /** The page flags of the listing agree with the records: a next page
      exactly when records remain past this one. */
  lemma ListingHasNext(store: seq<Question>, answers: seq<Answer>, users: seq<User>,
                       req: ListRequest, searchHit: (string, Question) -> bool)
    requires req.page >= 1 && req.limit >= 1
    ensures var query := BuildQuery(users, req.search, req.tag, req.author);
      var p := ListQuestions(store, answers, users, req, searchHit).pagination;
      && (p.hasNext <==> Skip(req.page, req.limit) + req.limit < |Selected(store, query, searchHit)|)
      && (p.hasPrev <==> Skip(req.page, req.limit) > 0)
      && p.total == |Selected(store, query, searchHit)|
  {
    var query := BuildQuery(users, req.search, req.tag, req.author);
    HasNextIffMoreRecords(req.page, req.limit, |Selected(store, query, searchHit)|);
  }

  // ---------------------------------------------------------------- tags

  /** The question count stored for the first tag with that name, 0 when
      there is none. */
  function TagCount(tags: seq<Tag>, name: string): nat {
    if tags == [] then 0
    else if tags[0].name == name then tags[0].questionCount
    else TagCount(tags[1..], name)
  }

  ghost predicate UniqueNames(tags: seq<Tag>) {
    forall i, j :: 0 <= i < j < |tags| ==> tags[i].name != tags[j].name
  }

  predicate HasTag(tags: seq<Tag>, name: string) {
    tags != [] && (tags[0].name == name || HasTag(tags[1..], name))
  }

  lemma {:induction false} HasTagIff(tags: seq<Tag>, name: string)
    ensures HasTag(tags, name) <==> exists k :: 0 <= k < |tags| && tags[k].name == name
  {
    if tags != [] {
      HasTagIff(tags[1..], name);
      if exists k :: 0 <= k < |tags| && tags[k].name == name {
        var k :| 0 <= k < |tags| && tags[k].name == name;
        if k > 0 {
          assert tags[1..][k - 1].name == name;
        }
      }
      if exists k :: 0 <= k < |tags[1..]| && tags[1..][k].name == name {
        var k :| 0 <= k < |tags[1..]| && tags[1..][k].name == name;
        assert tags[k + 1].name == name;
      }
    }
  }

  /** The tag an upsert inserts: the schema defaults, then the increment. */
  function Inserted(name: string): (t: Tag)
    ensures t == NewTag(name).(questionCount := 1)
  {
    var created := NewTag(name);
    created.(questionCount := created.questionCount + 1)
  }

  /** `findOneAndUpdate({name}, {$inc: {questionCount: 1}, $setOnInsert: {name}},
      {upsert: true})`: the first tag of that name gains one, or a new tag
      with the schema defaults and a count of one is appended. */
  function Upsert(tags: seq<Tag>, name: string): (r: seq<Tag>)
    ensures HasTag(tags, name) ==> |r| == |tags|
    ensures !HasTag(tags, name) ==> |r| == |tags| + 1 && r[|tags|] == Inserted(name)
    ensures forall k :: 0 <= k < |tags| ==>
      r[k].name == tags[k].name && r[k].description == tags[k].description
  {
    UpsertWith(tags, name, Inserted(name))
  }

  /** The upsert, given the tag it appends when no tag has the name. */
  function UpsertWith(tags: seq<Tag>, name: string, created: Tag): (r: seq<Tag>)
    ensures HasTag(tags, name) ==> |r| == |tags|
    ensures !HasTag(tags, name) ==> |r| == |tags| + 1 && r[|tags|] == created
    ensures forall k :: 0 <= k < |tags| ==>
      r[k].name == tags[k].name && r[k].description == tags[k].description
  {
    if tags == [] then [created]
    else if tags[0].name == name then
      [tags[0].(questionCount := tags[0].questionCount + 1)] + tags[1..]
    else
      var rest := UpsertWith(tags[1..], name, created);
      UpsertBehind(tags, name, rest, created);
      [tags[0]] + rest
  }

  /** Putting a tag of another name back in front of the upsert into the
      rest. */
  lemma UpsertBehind(tags: seq<Tag>, name: string, rest: seq<Tag>, created: Tag)
    requires tags != [] && tags[0].name != name
    requires HasTag(tags[1..], name) ==> |rest| == |tags| - 1
    requires !HasTag(tags[1..], name) ==> |rest| == |tags| && rest[|tags| - 1] == created
    requires forall k :: 0 <= k < |tags| - 1 ==>
      rest[k].name == tags[1..][k].name && rest[k].description == tags[1..][k].description
    ensures var r := [tags[0]] + rest;
      && (HasTag(tags, name) ==> |r| == |tags|)
      && (!HasTag(tags, name) ==> |r| == |tags| + 1 && r[|tags|] == created)
      && forall k :: 0 <= k < |tags| ==> r[k].name == tags[k].name && r[k].description == tags[k].description
  {
    var r := [tags[0]] + rest;
    assert HasTag(tags, name) == HasTag(tags[1..], name);
    forall k | 1 <= k < |tags| ensures r[k].name == tags[k].name && r[k].description == tags[k].description {
      assert r[k] == rest[k - 1] && tags[k] == tags[1..][k - 1];
    }
  }

  /** Upserting a normalised name adds one to that name's count and leaves
      every other name's count as it was. */
  lemma UpsertCount(tags: seq<Tag>, name: string, other: string)
    requires NormTag(name) == name
    ensures TagCount(Upsert(tags, name), other) == TagCount(tags, other) + (if other == name then 1 else 0)
  {
    UpsertWithCount(tags, name, Inserted(name), other);
  }

  lemma {:induction false} UpsertWithCount(tags: seq<Tag>, name: string, created: Tag, other: string)
    requires created.name == name && created.questionCount == 1
    ensures TagCount(UpsertWith(tags, name, created), other) == TagCount(tags, other) + (if other == name then 1 else 0)
  {
    if tags != [] && tags[0].name != name {
      UpsertWithCount(tags[1..], name, created, other);
      assert UpsertWith(tags, name, created)[1..] == UpsertWith(tags[1..], name, created);
    }
  }

  /** Upserting a normalised name keeps at most one tag per name. */
  lemma UpsertKeepsNamesUnique(tags: seq<Tag>, name: string)
    requires NormTag(name) == name && UniqueNames(tags)
    ensures UniqueNames(Upsert(tags, name))
  {
    var r := Upsert(tags, name);
    HasTagIff(tags, name);
    forall i, j | 0 <= i < j < |r| ensures r[i].name != r[j].name {
      if j == |tags| {
        assert r[j].name == name;
      }
    }
  }

  /** The loop over the request's tags, in order, duplicates included. */
  function UpsertAll(tags: seq<Tag>, raw: seq<string>): seq<Tag>
    decreases |raw|
  {
    if raw == [] then tags else UpsertAll(Upsert(tags, NormTag(raw[0])), raw[1..])
  }

  /** Each normalised name's count grows by the number of request tags that
      normalise to it. */
  lemma {:induction false} UpsertAllCounts(tags: seq<Tag>, raw: seq<string>, name: string)
    ensures TagCount(UpsertAll(tags, raw), name) == TagCount(tags, name) + Count(NormTags(raw), name)
    decreases |raw|
  {
    if raw != [] {
      var n := NormTag(raw[0]);
      NormTagIdempotent(raw[0]);
      UpsertCount(tags, n, name);
      UpsertAllCounts(Upsert(tags, n), raw[1..], name);
      assert UpsertAll(tags, raw) == UpsertAll(Upsert(tags, n), raw[1..]);
      NormTagsTail(raw);
      CountFirst(NormTags(raw), name);
    }
  }

  /** Counting a request's tags keeps at most one tag per name. */
  lemma {:induction false} UpsertAllKeepsNamesUnique(tags: seq<Tag>, raw: seq<string>)
    requires UniqueNames(tags)
    ensures UniqueNames(UpsertAll(tags, raw))
    decreases |raw|
  {
    if raw != [] {
      NormTagIdempotent(raw[0]);
      UpsertKeepsNamesUnique(tags, NormTag(raw[0]));
      UpsertAllKeepsNamesUnique(Upsert(tags, NormTag(raw[0])), raw[1..]);
    }
  }

  // ---------------------------------------------------------------- create

  /** The JSON body; a field that is absent or empty is `None` or falsy. */
  datatype PostRequest = PostRequest(title: Option<string>, description: Option<string>, tags: Option<seq<string>>)

  datatype PostReply = PostRefused(status: nat, error: string) | Created(question: Question)

  function Status(reply: PostReply): nat {
    match reply
    case PostRefused(status, _) => status
    case Created(_) => 201
  }

  datatype PostResult = PostResult(reply: PostReply, questions: seq<Question>, tags: seq<Tag>)

  /** `POST`: the title is trimmed and the tags lowercased and trimmed before
      the schema applies its own setters; a schema failure on save is a 500
      with nothing written; the tags are counted only after the question is
      saved. */
  function HandlePost(questions: seq<Question>, tags: seq<Tag>, caller: Option<Id>,
                      req: PostRequest, newId: Id, now: int): (r: PostResult)
    ensures r.reply.PostRefused? ==> r.questions == questions && r.tags == tags
    ensures r.reply.PostRefused? ==> r.reply.status in {400, 401, 500}
    ensures caller.None? ==> r.reply == PostRefused(401, "Unauthorized")
    ensures caller.Some? && (!Truthy(req.title) || !Truthy(req.description)) ==>
      r.reply == PostRefused(400, "Title and description are required")
    ensures caller.Some? && Truthy(req.title) && Truthy(req.description) && !r.reply.Created? ==>
      r.reply == PostRefused(500, "Failed to create question")
    ensures r.reply.Created? <==>
      && caller.Some? && Truthy(req.title) && Truthy(req.description)
      && Trim(req.title.value) != [] && |Trim(req.title.value)| <= TitleMaxLength
    ensures r.reply.Created? ==>
      var q := r.reply.question;
      && Status(r.reply) == 201
      && r.questions == questions + [q]
      && q.id == newId && q.author == caller.value && q.createdAt == now
      && q.title == Trim(req.title.value) && q.description == req.description.value
      && q.tags == NormTags(req.tags.GetOr([]))
      && q.votes == NoVotes && q.acceptedAnswer == None && q.views == 0
      && r.tags == UpsertAll(tags, req.tags.GetOr([]))
  {
    if caller.None? then PostResult(PostRefused(401, "Unauthorized"), questions, tags)
    else if !Truthy(req.title) || !Truthy(req.description) then
      PostResult(PostRefused(400, "Title and description are required"), questions, tags)
    else
      var raw := req.tags.GetOr([]);
      NormTagsIdempotent(raw);
      match NewQuestion(newId, Trim(req.title.value), req.description.value, NormTags(raw), caller.value, now)
      case Err(_) => PostResult(PostRefused(500, "Failed to create question"), questions, tags)
      case Ok(q) =>
        TrimIdempotent(req.title.value);
        PostResult(Created(q), questions + [q], UpsertAll(tags, raw))
  }

  lemma NormTagsIdempotent(raw: seq<string>)
    ensures NormTags(NormTags(raw)) == NormTags(raw)
  {
    forall k | 0 <= k < |raw| ensures NormTags(NormTags(raw))[k] == NormTags(raw)[k] {
      NormTagIdempotent(raw[k]);
    }
  }

  /** A created question counts once for each of its stored tags: every
      stored tag's count rises by how often the question carries it. */
  lemma CreatedQuestionCountsItsTags(questions: seq<Question>, tags: seq<Tag>, caller: Option<Id>,
                                     req: PostRequest, newId: Id, now: int, name: string)
    requires UniqueNames(tags)
    ensures var r := HandlePost(questions, tags, caller, req, newId, now);
      && UniqueNames(r.tags)
      && (r.reply.Created? ==>
            TagCount(r.tags, name) == TagCount(tags, name) + Count(r.reply.question.tags, name))
  {
    UpsertAllCounts(tags, req.tags.GetOr([]), name);
    UpsertAllKeepsNamesUnique(tags, req.tags.GetOr([]));
  }
}
