/** The stored records (users, questions, answers, notifications, tags), their
    defaults and enumerations, and the checks the schemas apply when a new
    record is saved. A failed schema check is a `Result.Err`; the routes that
    save records turn it into their generic 500 reply. */
module Models {
  import opened Base
  import opened Text

  /** The two voter lists of a question or an answer. The schema keeps them as
      plain arrays: it does not stop an id from appearing twice or in both. */
  datatype Votes = Votes(upvotes: seq<Id>, downvotes: seq<Id>)

  const NoVotes: Votes := Votes([], [])

  /** The derived `voteScore`: never stored, always recomputed. */
  function VoteScore(v: Votes): int {
    |v.upvotes| - |v.downvotes|
  }

  /** `voteScore` on a lean document, where a list may be absent and then
      counts as empty. */
  function LeanVoteScore(upvotes: Option<seq<Id>>, downvotes: Option<seq<Id>>): int {
    |upvotes.GetOr([])| - |downvotes.GetOr([])|
  }

  lemma LeanVoteScoreAgrees(v: Votes)
    ensures LeanVoteScore(Some(v.upvotes), Some(v.downvotes)) == VoteScore(v)
    ensures LeanVoteScore(None, Some(v.downvotes)) == -|v.downvotes|
    ensures LeanVoteScore(Some(v.upvotes), None) == |v.upvotes|
  {
  }

  datatype Question = Question(
    id: Id,
    title: string,
    description: string,
    tags: seq<string>,
    author: Id,
    votes: Votes,
    acceptedAnswer: Option<Id>,
    views: nat,
    createdAt: int)

  datatype Answer = Answer(
    id: Id,
    content: string,
    author: Id,
    question: Id,
    votes: Votes,
    isAccepted: bool,
    createdAt: int)

  datatype NotificationType = AnswerNote | CommentNote | MentionNote | AcceptNote

  function TypeName(t: NotificationType): string {
    match t
    case AnswerNote => "answer"
    case CommentNote => "comment"
    case MentionNote => "mention"
    case AcceptNote => "accept"
  }

  /** The schema's `enum` check on the notification `type` field. */
  function ParseType(s: string): (r: Option<NotificationType>)
    ensures r.Some? <==> s in {"answer", "comment", "mention", "accept"}
    ensures r.Some? ==> TypeName(r.value) == s
  {
    if s == "answer" then Some(AnswerNote)
    else if s == "comment" then Some(CommentNote)
    else if s == "mention" then Some(MentionNote)
    else if s == "accept" then Some(AcceptNote)
    else None
  }

  lemma ParseTypeName(t: NotificationType)
    ensures ParseType(TypeName(t)) == Some(t)
  {
  }

  datatype Notification = Notification(
    id: Id,
    recipient: Id,
    sender: Id,
    kind: NotificationType,
    message: string,
    relatedQuestion: Option<Id>,
    relatedAnswer: Option<Id>,
    isRead: bool,
    createdAt: int)

  datatype Role = UserRole | AdminRole

  datatype User = User(
    id: Id,
    username: string,
    email: string,
    password: string,
    role: Role,
    reputation: int)

  datatype Tag = Tag(name: string, description: string, questionCount: nat)

  const TitleMaxLength := 400
  const UsernameMinLength := 3
  const UsernameMaxLength := 40
  const PasswordMinLength := 6

  /** The stored form of a tag: lower-cased and trimmed. */
  function NormTag(t: string): string {
    Trim(ToLower(t))
  }

  lemma NormTagIdempotent(t: string)
    ensures NormTag(NormTag(t)) == NormTag(t)
  {
    var n := NormTag(t);
    TrimLowerCommute(ToLower(t));
    ToLowerIdempotent(t);
    assert NormTag(n) == Trim(Trim(ToLower(t)));
    TrimIdempotent(ToLower(t));
  }

  function NormTags(tags: seq<string>): (r: seq<string>)
    ensures |r| == |tags|
    ensures forall k :: 0 <= k < |tags| ==> r[k] == NormTag(tags[k])
  {
    seq(|tags|, k requires 0 <= k < |tags| => NormTag(tags[k]))
  }

  lemma NormTagsTail(raw: seq<string>)
    requires raw != []
    ensures NormTags(raw)[0] == NormTag(raw[0]) && NormTags(raw)[1..] == NormTags(raw[1..])
  {
  }

  /** Saving a new question: the title is trimmed, then it must be non-empty
      and at most 400 characters; the description is required; tags are
      stored normalised; votes start empty, no answer is accepted, no views. */
  function NewQuestion(id: Id, title: string, description: string, tags: seq<string>,
                       author: Id, now: int): (r: Result<Question>)
    ensures r.Ok? <==> Trim(title) != [] && |Trim(title)| <= TitleMaxLength && description != []
    ensures r.Ok? ==> var q := r.value;
      && q.id == id && q.title == Trim(title) && q.description == description
      && q.tags == NormTags(tags) && q.author == author && q.createdAt == now
      && q.votes == NoVotes && q.acceptedAnswer == None && q.views == 0
  {
    var t := Trim(title);
    if t == [] then Err("Path `title` is required.")
    else if |t| > TitleMaxLength then Err("Path `title` is longer than the maximum allowed length (400).")
    else if description == [] then Err("Path `description` is required.")
    else Ok(Question(id, t, description, NormTags(tags), author, NoVotes, None, 0, now))
  }

  /** Saving a new answer: content is required and the answer starts
      unaccepted with no votes. Author and question are ids, so always set. */
  function NewAnswer(id: Id, content: string, author: Id, question: Id, now: int): (r: Result<Answer>)
    ensures r.Ok? <==> content != []
    ensures r.Ok? ==> r.value == Answer(id, content, author, question, NoVotes, false, now)
  {
    if content == [] then Err("Path `content` is required.")
    else Ok(Answer(id, content, author, question, NoVotes, false, now))
  }

  /** Saving a new notification: the type must be one of the four enumerated
      names and the message is required; it starts unread. */
  function NewNotification(id: Id, recipient: Id, sender: Id, typeName: string, message: string,
                           relatedQuestion: Option<Id>, relatedAnswer: Option<Id>, now: int)
    : (r: Result<Notification>)
    ensures r.Ok? <==> typeName in {"answer", "comment", "mention", "accept"} && message != []
    ensures r.Ok? ==> var n := r.value;
      && !n.isRead && TypeName(n.kind) == typeName && n.message == message
      && n.recipient == recipient && n.sender == sender
      && n.relatedQuestion == relatedQuestion && n.relatedAnswer == relatedAnswer
  {
    match ParseType(typeName)
    case None => Err("`" + typeName + "` is not a valid enum value for path `type`.")
    case Some(kind) =>
      if message == [] then Err("Path `message` is required.")
      else Ok(Notification(id, recipient, sender, kind, message, relatedQuestion, relatedAnswer, false, now))
  }

  /** Saving a new user: the username is trimmed, then required and 3 to 40
      characters long; the email is required; the stored password string is
      at least 6 characters. Role defaults to user and reputation to 0. */
  function NewUser(id: Id, username: string, email: string, password: string): (r: Result<User>)
    ensures r.Ok? <==>
      && UsernameMinLength <= |Trim(username)| <= UsernameMaxLength
      && email != [] && |password| >= PasswordMinLength
    ensures r.Ok? ==> r.value == User(id, Trim(username), email, password, UserRole, 0)
  {
    var u := Trim(username);
    if u == [] then Err("Path `username` is required.")
    else if |u| < UsernameMinLength then Err("Path `username` is shorter than the minimum allowed length (3).")
    else if |u| > UsernameMaxLength then Err("Path `username` is longer than the maximum allowed length (40).")
    else if email == [] then Err("Path `email` is required.")
    else if |password| < PasswordMinLength then Err("Path `password` is shorter than the minimum allowed length (6).")
    else Ok(User(id, u, email, password, UserRole, 0))
  }

  /** A tag created by an upsert: the name normalised, an empty description
      and a question count that the same update then increments. */
  function NewTag(name: string): (t: Tag)
    ensures t.name == NormTag(name) && NormTag(t.name) == t.name
    ensures t.description == [] && t.questionCount == 0
  {
    NormTagIdempotent(name);
    Tag(NormTag(name), "", 0)
  }
}
