/** The decision logic of the vote endpoint: given the two voter lists of a
    question or an answer, the voter and the requested direction, the new
    lists, the reputation change for the item's author and the action label.

    Reputation per vote is 5 for a question and 10 for an answer; adding or
    removing a downvote is worth 2 whatever the item type. */
module VoteEngine {
  import opened Base
  import opened Models

  datatype ItemKind = QuestionItem | AnswerItem

  datatype Direction = Up | Down

  datatype Action = RemovedUpvote | Upvoted | RemovedDownvote | Downvoted

  /** The caller's own vote as the reply reports it: `up`, `down` or `null`. */
  datatype UserVote = VotedUp | VotedDown | NoVote

  function ActionLabel(a: Action): string {
    match a
    case RemovedUpvote => "removed upvote"
    case Upvoted => "upvoted"
    case RemovedDownvote => "removed downvote"
    case Downvoted => "downvoted"
  }

  /** Reputation an upvote is worth to the author. */
  function Unit(kind: ItemKind): int {
    match kind
    case QuestionItem => 5
    case AnswerItem => 10
  }

  /** Reputation a downvote costs the author, for both item types. */
  const DownvoteCost := 2

  /** `ids.filter(id => id !== x)`: every occurrence of `x` goes, every other
      id keeps its occurrences and their relative order. */
  function Without(xs: seq<Id>, x: Id): (r: seq<Id>)
    ensures x !in r
    ensures forall y :: y != x ==> Count(r, y) == Count(xs, y)
    ensures |r| == |xs| - Count(xs, x)
  {
    if xs == [] then []
    else if xs[0] == x then Without(xs[1..], x)
    else
      var rest := Without(xs[1..], x);
      assert ([xs[0]] + rest)[1..] == rest;
      [xs[0]] + rest
  }

  lemma {:induction false} WithoutAbsent(xs: seq<Id>, x: Id)
    requires x !in xs
    ensures Without(xs, x) == xs
  {
    if xs != [] {
      WithoutAbsent(xs[1..], x);
      assert [xs[0]] + xs[1..] == xs;
    }
  }

  lemma {:induction false} WithoutAppend(xs: seq<Id>, x: Id, y: Id)
    ensures Without(xs + [y], x) == Without(xs, x) + Without([y], x)
  {
    if xs == [] {
      assert xs + [y] == [y];
    } else {
      assert (xs + [y])[0] == xs[0];
      assert (xs + [y])[1..] == xs[1..] + [y];
      WithoutAppend(xs[1..], x, y);
    }
  }

  lemma WithoutIdempotent(xs: seq<Id>, x: Id)
    ensures Without(Without(xs, x), x) == Without(xs, x)
  {
    WithoutAbsent(Without(xs, x), x);
  }

  datatype Outcome = Outcome(votes: Votes, delta: int, action: Action)

  /** One vote, step by step as the handler performs it. */
  function ApplyVote(v: Votes, kind: ItemKind, voter: Id, dir: Direction): (o: Outcome)
    // other voters' entries, and their relative order, are untouched
    ensures Without(o.votes.upvotes, voter) == Without(v.upvotes, voter)
    ensures Without(o.votes.downvotes, voter) == Without(v.downvotes, voter)
    // an upvote toggles: off when present, otherwise on and clearing any downvote
    ensures dir == Up && voter in v.upvotes ==>
      && voter !in o.votes.upvotes && o.votes.downvotes == v.downvotes
      && o.delta == -Unit(kind) && o.action == RemovedUpvote
    ensures dir == Up && voter !in v.upvotes ==>
      && Count(o.votes.upvotes, voter) == 1 && voter !in o.votes.downvotes
      && o.delta == Unit(kind) + (if voter in v.downvotes then DownvoteCost else 0)
      && o.action == Upvoted
    // a downvote toggles the same way, clearing any upvote when it is added
    ensures dir == Down && voter in v.downvotes ==>
      && voter !in o.votes.downvotes && o.votes.upvotes == v.upvotes
      && o.delta == DownvoteCost && o.action == RemovedDownvote
    ensures dir == Down && voter !in v.downvotes ==>
      && Count(o.votes.downvotes, voter) == 1 && voter !in o.votes.upvotes
      && o.delta == -DownvoteCost - (if voter in v.upvotes then Unit(kind) else 0)
      && o.action == Downvoted
  {
    var hasUp := voter in v.upvotes;
    var hasDown := voter in v.downvotes;
    match dir
    case Up =>
      if hasUp then
        WithoutIdempotent(v.upvotes, voter);
        Outcome(Votes(Without(v.upvotes, voter), v.downvotes), -Unit(kind), RemovedUpvote)
      else
        var down := if hasDown then Without(v.downvotes, voter) else v.downvotes;
        var refund := if hasDown then DownvoteCost else 0;
        WithoutAbsent(v.upvotes, voter);
        WithoutAppend(v.upvotes, voter, voter);
        CountAppend(v.upvotes, [voter], voter);
        CountZeroIffAbsent(v.upvotes, voter);
        assert Without(down, voter) == Without(v.downvotes, voter) by {
          if hasDown { WithoutIdempotent(v.downvotes, voter); } else { WithoutAbsent(v.downvotes, voter); }
        }
        Outcome(Votes(v.upvotes + [voter], down), refund + Unit(kind), Upvoted)
    case Down =>
      if hasDown then
        WithoutIdempotent(v.downvotes, voter);
        Outcome(Votes(v.upvotes, Without(v.downvotes, voter)), DownvoteCost, RemovedDownvote)
      else
        var up := if hasUp then Without(v.upvotes, voter) else v.upvotes;
        var penalty := if hasUp then Unit(kind) else 0;
        WithoutAbsent(v.downvotes, voter);
        WithoutAppend(v.downvotes, voter, voter);
        CountAppend(v.downvotes, [voter], voter);
        CountZeroIffAbsent(v.downvotes, voter);
        assert Without(up, voter) == Without(v.upvotes, voter) by {
          if hasUp { WithoutIdempotent(v.upvotes, voter); } else { WithoutAbsent(v.upvotes, voter); }
        }
        Outcome(Votes(up, v.downvotes + [voter]), -penalty - DownvoteCost, Downvoted)
  }

  /** The caller's vote read back from the lists, upvote first. */
  function UserVoteOf(v: Votes, voter: Id): UserVote {
    if voter in v.upvotes then VotedUp
    else if voter in v.downvotes then VotedDown
    else NoVote
  }

  /** The voter appears at most once, in at most one of the two lists. */
  predicate Consistent(v: Votes, voter: Id) {
    Count(v.upvotes, voter) + Count(v.downvotes, voter) <= 1
  }

  /** Every voter is consistent: the lists behave as two disjoint sets. */
  ghost predicate WellFormed(v: Votes) {
    forall u :: Consistent(v, u)
  }

  /** What one voter contributes to the score, and to the author's reputation. */
  function ScoreWeight(u: UserVote): int {
    match u
    case VotedUp => 1
    case VotedDown => -1
    case NoVote => 0
  }

  function ReputationWeight(u: UserVote, kind: ItemKind): int {
    match u
    case VotedUp => Unit(kind)
    case VotedDown => -DownvoteCost
    case NoVote => 0
  }

  lemma CountOfWithout(xs: seq<Id>, x: Id, y: Id)
    ensures Count(Without(xs, x), y) == if y == x then 0 else Count(xs, y)
  {
    if y == x {
      CountZeroIffAbsent(Without(xs, x), x);
    }
  }

  /** A vote keeps the voter consistent. */
  lemma VoteKeepsConsistent(v: Votes, kind: ItemKind, voter: Id, dir: Direction)
    requires Consistent(v, voter)
    ensures Consistent(ApplyVote(v, kind, voter, dir).votes, voter)
  {
    var o := ApplyVote(v, kind, voter, dir);
    CountZeroIffAbsent(o.votes.upvotes, voter);
    CountZeroIffAbsent(o.votes.downvotes, voter);
    CountZeroIffAbsent(v.upvotes, voter);
    CountZeroIffAbsent(v.downvotes, voter);
  }

  /** The central invariant: if no voter was ever in both lists (or twice in
      one), no vote puts anyone there. */
  lemma VoteKeepsWellFormed(v: Votes, kind: ItemKind, voter: Id, dir: Direction)
    requires WellFormed(v)
    ensures WellFormed(ApplyVote(v, kind, voter, dir).votes)
  {
    var w := ApplyVote(v, kind, voter, dir).votes;
    forall u ensures Consistent(w, u) {
      if u == voter {
        VoteKeepsConsistent(v, kind, voter, dir);
      } else {
        CountOfWithout(w.upvotes, voter, u);
        CountOfWithout(v.upvotes, voter, u);
        CountOfWithout(w.downvotes, voter, u);
        CountOfWithout(v.downvotes, voter, u);
        assert Consistent(v, u);
      }
    }
  }

  /** Voting the same way twice from a neutral state restores the lists
      exactly and the two reputation changes cancel. */
  lemma ToggleRestores(v: Votes, kind: ItemKind, voter: Id, dir: Direction)
    requires voter !in v.upvotes && voter !in v.downvotes
    ensures var first := ApplyVote(v, kind, voter, dir);
      var second := ApplyVote(first.votes, kind, voter, dir);
      second.votes == v && first.delta + second.delta == 0
  {
    var first := ApplyVote(v, kind, voter, dir);
    WithoutAbsent(v.upvotes, voter);
    WithoutAbsent(v.downvotes, voter);
    WithoutAppend(v.upvotes, voter, voter);
    WithoutAppend(v.downvotes, voter, voter);
  }

  lemma LengthOfWithout(xs: seq<Id>, x: Id)
    requires Count(xs, x) <= 1
    ensures |Without(xs, x)| == if x in xs then |xs| - 1 else |xs|
  {
    CountZeroIffAbsent(xs, x);
  }

  /** The score moves exactly by the change in the voter's own contribution,
      so the score always equals the sum of every voter's contribution. */
  lemma ScoreTracksUserVote(v: Votes, kind: ItemKind, voter: Id, dir: Direction)
    requires Consistent(v, voter)
    ensures var w := ApplyVote(v, kind, voter, dir).votes;
      VoteScore(w) - VoteScore(v) == ScoreWeight(UserVoteOf(w, voter)) - ScoreWeight(UserVoteOf(v, voter))
  {
    CountZeroIffAbsent(v.upvotes, voter);
    CountZeroIffAbsent(v.downvotes, voter);
    LengthOfWithout(v.upvotes, voter);
    LengthOfWithout(v.downvotes, voter);
  }

  /** The reputation change is the change in what the voter's vote is worth
      to the author; it is never zero. */
  lemma DeltaTracksUserVote(v: Votes, kind: ItemKind, voter: Id, dir: Direction)
    requires Consistent(v, voter)
    ensures var o := ApplyVote(v, kind, voter, dir);
      && o.delta == ReputationWeight(UserVoteOf(o.votes, voter), kind) - ReputationWeight(UserVoteOf(v, voter), kind)
      && o.delta != 0
  {
    CountZeroIffAbsent(v.upvotes, voter);
    CountZeroIffAbsent(v.downvotes, voter);
  }
}
