/** The vote endpoint: authentication, input checks, item and author lookup,
    the self-vote guard, then one application of the vote engine, one write
    of the item's lists and one reputation change for the item's author. */
module VoteRoute {
  import opened Base
  import opened Models
  import opened VoteEngine

  /** The collections the handler reads and writes. */
  datatype Db = Db(questions: seq<Question>, answers: seq<Answer>, users: seq<User>)

  /** The JSON body. A field that is absent or the empty string is `None`
      (`itemId`) or falsy (`itemType`, `voteType`). */
  datatype VoteRequest = VoteRequest(itemId: Option<Id>, itemType: Option<string>, voteType: Option<string>)

  datatype Reply =
    | Refused(status: nat, error: string)
    | Voted(message: string, voteScore: int, upvotes: nat, downvotes: nat, userVote: UserVote)

  datatype VoteResult = VoteResult(reply: Reply, db: Db)

  const MissingFieldsError := "itemId, itemType (question/answer), and voteType (up/down) required"
  const BadItemTypeError := "itemType must be question or answer"
  const BadVoteTypeError := "voteType must be up or down"

  function ParseKind(s: string): Option<ItemKind> {
    if s == "question" then Some(QuestionItem)
    else if s == "answer" then Some(AnswerItem)
    else None
  }

  function ParseDirection(s: string): Option<Direction> {
    if s == "up" then Some(Up)
    else if s == "down" then Some(Down)
    else None
  }

  /** `Model.findById(itemId)`: the position of the item in its collection. */
  function FindItem(db: Db, kind: ItemKind, id: Id): Option<nat> {
    match kind
    case QuestionItem => FindFirst(db.questions, (q: Question) => q.id == id)
    case AnswerItem => FindFirst(db.answers, (a: Answer) => a.id == id)
  }

  function FindUser(users: seq<User>, id: Id): Option<nat> {
    FindFirst(users, (u: User) => u.id == id)
  }

  function ItemAuthor(db: Db, kind: ItemKind, i: nat): Id
    requires kind == QuestionItem ==> i < |db.questions|
    requires kind == AnswerItem ==> i < |db.answers|
  {
    match kind
    case QuestionItem => db.questions[i].author
    case AnswerItem => db.answers[i].author
  }

  function ItemVotes(db: Db, kind: ItemKind, i: nat): Votes
    requires kind == QuestionItem ==> i < |db.questions|
    requires kind == AnswerItem ==> i < |db.answers|
  {
    match kind
    case QuestionItem => db.questions[i].votes
    case AnswerItem => db.answers[i].votes
  }

  /** `item.save()` with new lists: only the `votes` field of that one item. */
  function SaveVotes(db: Db, kind: ItemKind, i: nat, v: Votes): (r: Db)
    requires kind == QuestionItem ==> i < |db.questions|
    requires kind == AnswerItem ==> i < |db.answers|
    ensures r.users == db.users
    ensures kind == QuestionItem ==> r.answers == db.answers && r.questions == db.questions[i := db.questions[i].(votes := v)]
    ensures kind == AnswerItem ==> r.questions == db.questions && r.answers == db.answers[i := db.answers[i].(votes := v)]
  {
    match kind
    case QuestionItem => db.(questions := db.questions[i := db.questions[i].(votes := v)])
    case AnswerItem => db.(answers := db.answers[i := db.answers[i].(votes := v)])
  }

  /** `findByIdAndUpdate(author, {$inc: {reputation: delta}})`, skipped when
      the change is zero. */
  function AdjustReputation(users: seq<User>, j: nat, delta: int): (r: seq<User>)
    requires j < |users|
    ensures |r| == |users|
    ensures r[j] == users[j].(reputation := users[j].reputation + delta)
    ensures forall k :: 0 <= k < |users| && k != j ==> r[k] == users[k]
  {
    if delta != 0 then users[j := users[j].(reputation := users[j].reputation + delta)] else users
  }

  /** The handler. Every refusal leaves the database as it was. */
  function HandleVote(db: Db, caller: Option<Id>, req: VoteRequest): (r: VoteResult)
    ensures r.reply.Refused? ==> r.db == db
    ensures caller.None? ==> r.reply == Refused(401, "Unauthorized")
    ensures caller.Some? && (req.itemId.None? || !Truthy(req.itemType) || !Truthy(req.voteType)) ==>
      r.reply == Refused(400, MissingFieldsError)
    ensures (&& caller.Some? && req.itemId.Some? && req.itemType == Some("question")
             && req.voteType.Some? && req.voteType.value in {"up", "down"}
             && forall k :: 0 <= k < |db.questions| ==> db.questions[k].id != req.itemId.value) ==>
      r.reply == Refused(404, "question not found")
    ensures (&& caller.Some? && req.itemId.Some? && req.itemType == Some("answer")
             && req.voteType.Some? && req.voteType.value in {"up", "down"}
             && forall k :: 0 <= k < |db.answers| ==> db.answers[k].id != req.itemId.value) ==>
      r.reply == Refused(404, "answer not found")
    ensures r.reply.Voted? ==>
      && caller.Some? && req.itemId.Some?
      && req.itemType.Some? && req.itemType.value in {"question", "answer"}
      && req.voteType.Some? && req.voteType.value in {"up", "down"}
      && r.reply.voteScore == r.reply.upvotes - r.reply.downvotes
    ensures |r.db.questions| == |db.questions| && |r.db.answers| == |db.answers| && |r.db.users| == |db.users|
  {
    if caller.None? then VoteResult(Refused(401, "Unauthorized"), db)
    else if req.itemId.None? || !Truthy(req.itemType) || !Truthy(req.voteType) then
      VoteResult(Refused(400, MissingFieldsError), db)
    else
      var itemType := req.itemType.value;
      match ParseKind(itemType)
      case None => VoteResult(Refused(400, BadItemTypeError), db)
      case Some(kind) =>
        match ParseDirection(req.voteType.value)
        case None => VoteResult(Refused(400, BadVoteTypeError), db)
        case Some(dir) =>
          match FindItem(db, kind, req.itemId.value)
          case None =>
            assert "question" + " not found" == "question not found";
            assert "answer" + " not found" == "answer not found";
            VoteResult(Refused(404, itemType + " not found"), db)
          case Some(i) =>
            var author := ItemAuthor(db, kind, i);
            match FindUser(db.users, author)
            // the author did not populate, so reading its id throws
            case None => VoteResult(Refused(500, "Failed to vote"), db)
            case Some(j) =>
              if author == caller.value then
                VoteResult(Refused(400, "Cannot vote on your own " + itemType), db)
              else
                var o := ApplyVote(ItemVotes(db, kind, i), kind, caller.value, dir);
                var saved := SaveVotes(db, kind, i, o.votes);
                var db' := saved.(users := AdjustReputation(saved.users, j, o.delta));
                VoteResult(
                  Voted("Successfully " + ActionLabel(o.action), VoteScore(o.votes),
                        |o.votes.upvotes|, |o.votes.downvotes|, UserVoteOf(o.votes, caller.value)),
                  db')
  }

  /** A well-formed vote on another user's item writes exactly the engine's
      lists to that item and its reputation change to that item's author,
      and nothing else; the reply reports the new lists. */
  lemma VoteEffect(db: Db, voter: Id, itemId: Id, kind: ItemKind, dir: Direction, i: nat, j: nat)
    requires FindItem(db, kind, itemId) == Some(i)
    requires FindUser(db.users, ItemAuthor(db, kind, i)) == Some(j)
    requires ItemAuthor(db, kind, i) != voter
    ensures var req := VoteRequest(Some(itemId), Some(KindName(kind)), Some(DirectionName(dir)));
      var r := HandleVote(db, Some(voter), req);
      var o := ApplyVote(ItemVotes(db, kind, i), kind, voter, dir);
      && ItemVotes(r.db, kind, i) == o.votes
      && r.db.users[j].reputation == db.users[j].reputation + o.delta
      && (forall k :: 0 <= k < |db.users| && k != j ==> r.db.users[k] == db.users[k])
      && (forall k :: 0 <= k < |db.users| && db.users[k].id == voter ==> r.db.users[k] == db.users[k])
      && (kind == QuestionItem ==>
            r.db.answers == db.answers
            && forall k :: 0 <= k < |db.questions| && k != i ==> r.db.questions[k] == db.questions[k])
      && (kind == AnswerItem ==>
            r.db.questions == db.questions
            && forall k :: 0 <= k < |db.answers| && k != i ==> r.db.answers[k] == db.answers[k])
      && r.reply == Voted("Successfully " + ActionLabel(o.action), VoteScore(o.votes),
                          |o.votes.upvotes|, |o.votes.downvotes|, UserVoteOf(o.votes, voter))
  {
  }

  function KindName(kind: ItemKind): string {
    match kind
    case QuestionItem => "question"
    case AnswerItem => "answer"
  }

  function DirectionName(dir: Direction): string {
    match dir
    case Up => "up"
    case Down => "down"
  }

  /** Voting on one's own item is refused and changes nothing. */
  lemma SelfVoteRefused(db: Db, voter: Id, itemId: Id, kind: ItemKind, dir: Direction, i: nat)
    requires FindItem(db, kind, itemId) == Some(i)
    requires FindUser(db.users, ItemAuthor(db, kind, i)).Some?
    requires ItemAuthor(db, kind, i) == voter
    ensures var r := HandleVote(db, Some(voter), VoteRequest(Some(itemId), Some(KindName(kind)), Some(DirectionName(dir))));
      r.reply == Refused(400, "Cannot vote on your own " + KindName(kind)) && r.db == db
  {
  }

  /** Unknown item types and vote directions are refused before any lookup. */
  lemma BadTypesRefused(db: Db, voter: Id, itemId: Id, itemType: string, voteType: string)
    requires itemType != "" && voteType != ""
    ensures itemType !in {"question", "answer"} ==>
      HandleVote(db, Some(voter), VoteRequest(Some(itemId), Some(itemType), Some(voteType))) == VoteResult(Refused(400, BadItemTypeError), db)
    ensures itemType in {"question", "answer"} && voteType !in {"up", "down"} ==>
      HandleVote(db, Some(voter), VoteRequest(Some(itemId), Some(itemType), Some(voteType))) == VoteResult(Refused(400, BadVoteTypeError), db)
  {
  }

  /** Reputation has no floor: a first downvote on a fresh user's answer
      takes it below zero. */
  lemma ReputationCanGoNegative(voter: Id, author: Id)
    requires voter != author
    ensures var db := Db([], [Answer(1, "text", author, 7, NoVotes, false, 0)],
                         [User(author, "author", "a@b.c", "hash", UserRole, 0)]);
      var r := HandleVote(db, Some(voter), VoteRequest(Some(1), Some("answer"), Some("down")));
      r.db.users[0].reputation == -2 && r.reply.Voted? && r.reply.userVote == VotedDown
  {
  }

  /** Every stored item keeps its lists as two disjoint sets. */
  ghost predicate DbWellFormed(db: Db) {
    && (forall k :: 0 <= k < |db.questions| ==> WellFormed(db.questions[k].votes))
    && (forall k :: 0 <= k < |db.answers| ==> WellFormed(db.answers[k].votes))
  }

  /** The central invariant, at the level of the whole store: no request to
      the vote endpoint ever puts a user in both lists of an item, or twice in
      one list. */
  lemma HandleVoteKeepsWellFormed(db: Db, caller: Option<Id>, req: VoteRequest)
    requires DbWellFormed(db)
    ensures DbWellFormed(HandleVote(db, caller, req).db)
  {
    var r := HandleVote(db, caller, req);
    if r.reply.Voted? {
      var kind := ParseKind(req.itemType.value).value;
      var dir := ParseDirection(req.voteType.value).value;
      var i := FindItem(db, kind, req.itemId.value).value;
      VoteKeepsWellFormed(ItemVotes(db, kind, i), kind, caller.value, dir);
    }
  }
}
