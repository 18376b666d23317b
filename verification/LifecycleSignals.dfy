/** Which signals the classifier reports, read off the snapshot alone. */
module LifecycleSignals {
  import opened PyText
  import opened Results
  import opened Ordering
  import opened Lifecycle
  import Patches
  import Pushes

  // ---------------------------------------------------------------- what the snapshot shows

  /** An owner, member or collaborator whose name does not end as a bot's does. */
  ghost predicate FromMaintainer(r: Reading, author: string, association: string) {
    && (r.upper(association) == "OWNER" || r.upper(association) == "MEMBER" || r.upper(association) == "COLLABORATOR")
    && forall name :: r.fold(author) != name + "[bot]"
  }

  /** A time before another one; what has no time comes with the least time there is. */
  predicate Sooner(a: Option<nat>, b: Option<nat>) {
    b.Some? && if a.Some? then a.value < b.value else b.value > 0
  }

  predicate After(a: Option<nat>, x: nat, b: Option<nat>, y: nat) {
    Sooner(b, a) || (!Sooner(a, b) && y < x)
  }

  predicate IsVote(v: Review) {
    v.state == "APPROVED" || v.state == "CHANGES_REQUESTED" || v.state == "DISMISSED"
  }

  /** The review counts as its author's vote, and no later one of the same author does. */
  predicate LatestVote(r: Reading, s: Snapshot, v: Review) {
    && v in s.reviews && IsVote(v)
    && forall w | w in s.reviews && IsVote(w) && r.fold(w.author) == r.fold(v.author) ::
         !After(w.submittedAt, w.identifier, v.submittedAt, v.identifier)
  }

  predicate LatestCheck(r: Reading, s: Snapshot, c: CheckRun) {
    && c in s.checkRuns
    && forall d | d in s.checkRuns && r.fold(d.appName) == r.fold(c.appName) && r.fold(d.name) == r.fold(c.name) ::
         !After(d.startedAt, d.identifier, c.startedAt, c.identifier)
  }

  predicate LatestStatus(r: Reading, s: Snapshot, st: CommitStatus) {
    && st in s.commitStatuses
    && forall other | other in s.commitStatuses && r.fold(other.context) == r.fold(st.context) ::
         && other.updatedAt <= st.updatedAt
         && (other.updatedAt == st.updatedAt ==> other.createdAt <= st.createdAt)
         && (other.updatedAt == st.updatedAt && other.createdAt == st.createdAt ==> other.identifier <= st.identifier)
  }

  /** The snapshot shows this evidence. */
  ghost predicate Shows(r: Reading, s: Snapshot, e: Evidence) {
    var pr := s.pullRequest;
    match e
    case Head(byOthers) =>
      r.fold(pr.headSha) != r.fold(s.expectedHeadSha) && byOthers == Pushes.OthersLedToHead(PushRecord(r, s))
    case Vote(v) =>
      LatestVote(r, s, v) && v.state == "CHANGES_REQUESTED" && FromMaintainer(r, v.author, v.association)
    case ReviewStop(v, stop) =>
      v in s.reviews && r.stop(v.body) == Some(stop) && FromMaintainer(r, v.author, v.association)
    case IssueCommentStop(c, stop) =>
      c in s.issueComments && r.stop(c.body) == Some(stop) && FromMaintainer(r, c.author, c.association)
    case ReviewCommentStop(c, stop) =>
      c in s.reviewComments && r.stop(c.body) == Some(stop) && FromMaintainer(r, c.author, c.association)
    case FailedCheck(c) =>
      && LatestCheck(r, s, c) && c.status == "completed"
      && (c.conclusion == Some("failure") || c.conclusion == Some("startup_failure") || c.conclusion == Some("timed_out"))
    case FailedStatus(st) =>
      LatestStatus(r, s, st) && (st.state == "error" || st.state == "failure")
    case Closed =>
      pr.state == "closed" && !pr.merged
    case Revert(ref) =>
      && ref in s.references && r.isRevert(ref, pr)
      && pr.merged && pr.mergedAt.Some? && ref.state == "closed" && ref.mergedAt.Some? && pr.mergedAt.value < ref.mergedAt.value
  }

  // ---------------------------------------------------------------- the latest of each key

  lemma {:induction false} InKeyOrderHolds<T>(latest: map<seq<string>, T>, keys: set<seq<string>>, x: T)
    requires keys <= latest.Keys && TotalOrder(TupleLeq)
    ensures x in InKeyOrder(latest, keys, TupleLeq) <==> exists k :: k in keys && latest[k] == x
    decreases |keys|
  {
    hide TupleLeq, TotalOrder;
    if keys != {} {
      var least := LeastExists(keys, TupleLeq);
      var k :| k in keys && (forall j | j in keys :: TupleLeq(k, j))
               && InKeyOrder(latest, keys, TupleLeq) == [latest[k]] + InKeyOrder(latest, keys - {k}, TupleLeq);
      InKeyOrderHolds(latest, keys - {k}, x);
    }
  }

  /** With distinct ranks the newest items of all keys are those that no item of their key is newer than. */
  lemma NewestExactly<T>(items: seq<T>, key: T -> seq<string>, rank: T -> (nat, nat, nat), x: T)
    requires DistinctRanks(items, rank)
    ensures x in InOrder(Latest(items, key, rank)) <==> Greatest(items, key, rank, key(x), x)
  {
    hide Latest, TupleLeq, Greatest, DistinctRanks;
    TupleIsTotal();
    var latest := Latest(items, key, rank);
    InKeyOrderHolds(latest, latest.Keys, x);
    forall k | k in latest
      ensures Greatest(items, key, rank, k, latest[k]) && key(latest[k]) == k
    {
      LatestIsGreatest(items, key, rank, k);
      GreatestHas(items, key, rank, k, latest[k]);
    }
    if Greatest(items, key, rank, key(x), x) {
      GreatestHas(items, key, rank, key(x), x);
      LatestIsGreatest(items, key, rank, key(x));
      GreatestIsUnique(items, key, rank, key(x), x, latest[key(x)]);
    }
  }

  lemma GreatestHas<T>(items: seq<T>, key: T -> seq<string>, rank: T -> (nat, nat, nat), k: seq<string>, x: T)
    requires Greatest(items, key, rank, k, x)
    ensures x in items && key(x) == k
  {}

  lemma EffectiveExactly(reviews: seq<Review>, v: Review)
    ensures v in Collect(reviews, OnlyEffective)
            <==> v in reviews && IsVote(v)
  {
    hide Collect;
    CollectedFrom(reviews, OnlyEffective, v);
  }

  lemma VotesExactly(r: Reading, s: Snapshot, v: Review)
    requires UniqueIds(s)
    ensures v in LatestEffectiveReviews(r, s.reviews) <==> LatestVote(r, s, v)
  {
    hide UniqueIds, InOrder, Latest, Collect, DistinctRanks;
    RanksAreDistinct(r, s);
    var items := Collect(s.reviews, OnlyEffective);
    NewestExactly(items, ReviewKey(r), ReviewRank, v);
    forall w
      ensures w in items <==> w in s.reviews && IsVote(w)
    {
      EffectiveExactly(s.reviews, w);
    }
  }

  lemma ChecksExactly(r: Reading, s: Snapshot, c: CheckRun)
    requires UniqueIds(s)
    ensures c in LatestCheckRuns(r, s.checkRuns) <==> LatestCheck(r, s, c)
  {
    RanksAreDistinct(r, s);
    hide UniqueIds, InOrder, Latest, DistinctRanks;
    NewestExactly(s.checkRuns, CheckKey(r), CheckRank, c);
  }

  lemma StatusesExactly(r: Reading, s: Snapshot, st: CommitStatus)
    requires UniqueIds(s)
    ensures st in LatestCommitStatuses(r, s.commitStatuses) <==> LatestStatus(r, s, st)
  {
    RanksAreDistinct(r, s);
    hide UniqueIds, InOrder, Latest, DistinctRanks;
    NewestExactly(s.commitStatuses, StatusKey(r), StatusRank, st);
  }

  lemma MaintainerExactly(r: Reading, author: string, association: string)
    ensures IsMaintainer(r, author, association) <==> FromMaintainer(r, author, association)
  {
    var name := r.fold(author);
    if |name| >= 5 && name[|name| - 5..] == "[bot]" {
      assert name == name[..|name| - 5] + "[bot]";
    }
  }

  lemma InFound(r: Reading, s: Snapshot, e: Evidence)
    ensures e in Found(r, s) <==>
            || e in OfHead(r, s)
            || e in Collect(LatestEffectiveReviews(r, s.reviews), OfVote(r))
            || e in Collect(s.reviews, OfReview(r))
            || e in Collect(s.issueComments, OfIssueComment(r))
            || e in Collect(s.reviewComments, OfReviewComment(r))
            || e in Collect(LatestCheckRuns(r, s.checkRuns), OfCheck)
            || e in Collect(LatestCommitStatuses(r, s.commitStatuses), OfStatus)
            || e in OfState(s.pullRequest)
            || e in Collect(s.references, OfReference(r, s.pullRequest))
  {
    hide OfHead, Collect, LatestEffectiveReviews, LatestCheckRuns, LatestCommitStatuses, OfState;
  }

  /** The classifier finds exactly what the snapshot shows. */
  lemma FoundExactly(r: Reading, s: Snapshot, e: Evidence)
    requires UniqueIds(s)
    ensures e in Found(r, s) <==> Shows(r, s, e)
  {
    hide UniqueIds, Found, Collect, LatestEffectiveReviews, LatestCheckRuns, LatestCommitStatuses,
         LatestVote, LatestCheck, LatestStatus, IsMaintainer, FromMaintainer, Pushes.OthersLedToHead;
    InFound(r, s, e);
    CollectedFrom(LatestEffectiveReviews(r, s.reviews), OfVote(r), e);
    CollectedFrom(s.reviews, OfReview(r), e);
    CollectedFrom(s.issueComments, OfIssueComment(r), e);
    CollectedFrom(s.reviewComments, OfReviewComment(r), e);
    CollectedFrom(LatestCheckRuns(r, s.checkRuns), OfCheck, e);
    CollectedFrom(LatestCommitStatuses(r, s.commitStatuses), OfStatus, e);
    CollectedFrom(s.references, OfReference(r, s.pullRequest), e);
    match e
    case Head(_) =>
    case Vote(v) =>
      VotesExactly(r, s, v);
      MaintainerExactly(r, v.author, v.association);
    case ReviewStop(v, _) => MaintainerExactly(r, v.author, v.association);
    case IssueCommentStop(c, _) => MaintainerExactly(r, c.author, c.association);
    case ReviewCommentStop(c, _) => MaintainerExactly(r, c.author, c.association);
    case FailedCheck(c) => ChecksExactly(r, s, c);
    case FailedStatus(st) => StatusesExactly(r, s, st);
    case Closed =>
    case Revert(_) =>
  }

  // ---------------------------------------------------------------- what is reported of it

  /** The text of a key with an identifier, before the part that tells its versions apart. */
  function KeyStart(prefix: string, id: nat): string {
    prefix + ":" + Patches.Decimal(id) + ":"
  }

  /** What a request to stop is called: automation turned away, or this pull request. */
  predicate NamesStop(stop: Stop, who: string, x: Signal) {
    match stop
    case TurnsAway => x.kind == AutomationStop && x.reason == who + "turns away automated or AI contributions"
    case AsksToClose => x.kind == MaintainerStop && x.reason == who + "asks to close or stop this pull request"
  }

  predicate NamesReview(r: Reading, prefix: string, fields: seq<Field>, v: Review, x: Signal) {
    x.sourceUrl == v.url && x.evidenceKey == KeyStart(prefix, v.identifier) + r.version([Text(v.author), Text(v.association)] + fields + [Text(v.body), Time(v.submittedAt)])
  }

  predicate NamesComment(r: Reading, prefix: string, c: Comment, x: Signal) {
    && x.sourceUrl == c.url
    && x.evidenceKey == KeyStart(prefix, c.identifier) + r.version([Text(c.author), Text(c.association), Text(c.body), Time(Some(c.updatedAt))])
  }

  /** The signal names this evidence. */
  predicate Names(r: Reading, pr: PullRequest, e: Evidence, x: Signal) {
    && x.pullRequestUrl == pr.url
    && match e
       case Head(byOthers) =>
         && x.evidenceKey == r.fold(pr.headSha) && x.sourceUrl == pr.url
         && if byOthers then x.kind == MaintainerPush && x.reason == "Someone with push access to the repository added commits to this PR"
            else x.kind == HeadDrift && x.reason == "Published pull-request head no longer matches the prepared commit, and "
                   + "GitHub does not show that every push since then came from another account"
       case Vote(v) =>
         && x.kind == ChangesRequested && x.reason == "A maintainer submitted a changes-requested review"
         && NamesReview(r, "review", [Text(v.state)], v, x)
       case ReviewStop(v, stop) => NamesStop(stop, "A maintainer review ", x) && NamesReview(r, "review-stop", [], v, x)
       case IssueCommentStop(c, stop) => NamesStop(stop, "A maintainer comment ", x) && NamesComment(r, "issue-comment", c, x)
       case ReviewCommentStop(c, stop) => NamesStop(stop, "A maintainer comment ", x) && NamesComment(r, "review-comment", c, x)
       case FailedCheck(c) =>
         && c.conclusion.Some? && x.kind == CiFailed
         && x.evidenceKey == KeyStart("check-run", c.identifier) + c.conclusion.value
         && x.reason == "Latest CI check " + r.quoted(c.name) + " completed with " + c.conclusion.value
         && x.sourceUrl == (if c.detailsUrl == "" then pr.url else c.detailsUrl)
       case FailedStatus(st) =>
         && x.kind == CiFailed
         && x.evidenceKey == KeyStart("commit-status", st.identifier) + st.state
         && x.reason == "Latest commit status " + r.quoted(st.context) + " is " + st.state
         && x.sourceUrl == (if st.targetUrl == "" then pr.url else st.targetUrl)
       case Closed =>
         && x.kind == ClosedUnmerged && x.sourceUrl == pr.url && x.reason == "Pull request was closed without being merged"
         && x.evidenceKey == "closed:" + (match pr.closedAt case None => "unknown" case Some(at) => r.isoformat(at))
       case Revert(ref) =>
         && x.kind == Reverted && x.sourceUrl == ref.url && x.reason == "A merged pull request explicitly reverts this contribution"
         && x.evidenceKey == KeyStart("revert-reference", ref.identifier) + r.version([Text(ref.title), Text(ref.body), Time(ref.mergedAt)])
  }

  lemma KeyTextStarts(prefix: string, id: nat, tail: string)
    ensures KeyText(prefix, id, tail) == KeyStart(prefix, id) + tail
  {
    hide Patches.Decimal;
    var front := prefix + ":" + Patches.Decimal(id);
    assert front + (":" + tail) == (front + ":") + tail;
  }

  lemma VoteFields(v: Review)
    ensures [Text(v.author), Text(v.association)] + [Text(v.state)] + [Text(v.body), Time(v.submittedAt)]
            == [Text(v.author), Text(v.association), Text(v.state), Text(v.body), Time(v.submittedAt)]
    ensures [Text(v.author), Text(v.association)] + [] + [Text(v.body), Time(v.submittedAt)]
            == [Text(v.author), Text(v.association), Text(v.body), Time(v.submittedAt)]
  {}

  lemma ReviewsNamed(r: Reading, pr: PullRequest, e: Evidence, x: Signal)
    requires e.Vote? || e.ReviewStop?
    ensures x in Report(r, pr)(e) <==> Names(r, pr, e, x)
  {
    hide KeyText, KeyStart;
    VoteFields(e.review);
    match e
    case Vote(v) =>
      KeyTextStarts("review", v.identifier, r.version([Text(v.author), Text(v.association), Text(v.state), Text(v.body), Time(v.submittedAt)]));
    case ReviewStop(v, _) =>
      KeyTextStarts("review-stop", v.identifier, r.version([Text(v.author), Text(v.association), Text(v.body), Time(v.submittedAt)]));
  }

  lemma CommentsNamed(r: Reading, pr: PullRequest, e: Evidence, x: Signal)
    requires e.IssueCommentStop? || e.ReviewCommentStop?
    ensures x in Report(r, pr)(e) <==> Names(r, pr, e, x)
  {
    hide KeyText, KeyStart;
    var c := e.comment;
    var version := r.version([Text(c.author), Text(c.association), Text(c.body), Time(Some(c.updatedAt))]);
    KeyTextStarts("issue-comment", c.identifier, version);
    KeyTextStarts("review-comment", c.identifier, version);
  }

  lemma FailuresNamed(r: Reading, pr: PullRequest, e: Evidence, x: Signal)
    requires (e.FailedCheck? && e.check.conclusion.Some?) || e.FailedStatus?
    ensures x in Report(r, pr)(e) <==> Names(r, pr, e, x)
  {
    hide KeyText, KeyStart;
    match e
    case FailedCheck(c) => KeyTextStarts("check-run", c.identifier, c.conclusion.value);
    case FailedStatus(st) => KeyTextStarts("commit-status", st.identifier, st.state);
  }

  lemma HeadNamed(r: Reading, pr: PullRequest, byOthers: bool, x: Signal)
    ensures x in Report(r, pr)(Head(byOthers)) <==> Names(r, pr, Head(byOthers), x)
  {}

  lemma ClosedNamed(r: Reading, pr: PullRequest, x: Signal)
    ensures x in Report(r, pr)(Closed) <==> Names(r, pr, Closed, x)
  {}

  lemma RevertNamed(r: Reading, pr: PullRequest, ref: Reference, x: Signal)
    ensures x in Report(r, pr)(Revert(ref)) <==> Names(r, pr, Revert(ref), x)
  {
    hide KeyText, KeyStart;
    KeyTextStarts("revert-reference", ref.identifier, r.version([Text(ref.title), Text(ref.body), Time(ref.mergedAt)]));
  }

  lemma ReportNames(r: Reading, pr: PullRequest, e: Evidence, x: Signal)
    requires e.FailedCheck? ==> e.check.conclusion.Some?
    ensures x in Report(r, pr)(e) <==> Names(r, pr, e, x)
  {
    hide Report, Names;
    match e
    case Head(byOthers) => HeadNamed(r, pr, byOthers, x);
    case Vote(_) => ReviewsNamed(r, pr, e, x);
    case ReviewStop(_, _) => ReviewsNamed(r, pr, e, x);
    case IssueCommentStop(_, _) => CommentsNamed(r, pr, e, x);
    case ReviewCommentStop(_, _) => CommentsNamed(r, pr, e, x);
    case FailedCheck(_) => FailuresNamed(r, pr, e, x);
    case FailedStatus(_) => FailuresNamed(r, pr, e, x);
    case Closed => ClosedNamed(r, pr, x);
    case Revert(ref) => RevertNamed(r, pr, ref, x);
  }

  /** A signal is in the result exactly when the snapshot shows the evidence it names. */
  lemma SignalsExactly(r: Reading, s: Snapshot, x: Signal)
    requires UniqueIds(s)
    ensures x in Classify(r, s) <==> exists e :: Shows(r, s, e) && Names(r, s.pullRequest, e, x)
  {
    hide UniqueIds, Found, Collect, Report, Names, SortKey, TotalOrder, TupleLeq;
    var signals := Collect(Found(r, s), Report(r, s.pullRequest));
    TupleIsTotal();
    SortBySorts(signals, SortKey, TupleLeq);
    assert x in Classify(r, s) <==> x in multiset(Classify(r, s));
    CollectedFrom(Found(r, s), Report(r, s.pullRequest), x);
    forall e
      ensures e in Found(r, s) <==> Shows(r, s, e)
      ensures Shows(r, s, e) ==> (x in Report(r, s.pullRequest)(e) <==> Names(r, s.pullRequest, e, x))
    {
      FoundExactly(r, s, e);
      if Shows(r, s, e) { ReportNames(r, s.pullRequest, e, x); }
    }
  }

  // ---------------------------------------------------------------- each signal once, in order

  ghost predicate Once<T(!new)>(items: seq<T>) {
    forall x :: multiset(items)[x] <= 1
  }

  lemma OnceConcat<T(!new)>(a: seq<T>, b: seq<T>)
    requires Once(a) && Once(b) && forall x | x in a :: x !in b
    ensures Once(a + b)
  {
    forall x
      ensures multiset(a + b)[x] <= 1
    {
      assert multiset(a + b)[x] == multiset(a)[x] + multiset(b)[x];
      assert x in a <==> multiset(a)[x] > 0;
      assert x in b <==> multiset(b)[x] > 0;
    }
  }

  /** Items of which no two are the same give values of which no two are the same. */
  lemma {:induction false} CollectOnce<T(!new), U(!new)>(items: seq<T>, f: T -> seq<U>)
    requires Once(items)
    requires forall x :: |f(x)| <= 1
    requires forall x, y | x in items && y in items && f(x) != [] && f(y) != [] && f(x)[0] == f(y)[0] :: x == y
    ensures Once(Collect(items, f))
    decreases |items|
  {
    if items != [] {
      var n := |items| - 1;
      var x := items[n];
      assert items == items[..n] + [x];
      forall y
        ensures multiset(items[..n])[y] <= 1
        ensures y == x ==> y !in items[..n]
      {
        assert multiset(items)[y] == multiset(items[..n])[y] + multiset([x])[y];
      }
      CollectOnce(items[..n], f);
      forall u | u in Collect(items[..n], f)
        ensures u !in f(x)
      {
        CollectedFrom(items[..n], f, u);
      }
      OnceConcat(Collect(items[..n], f), f(x));
    }
  }

  lemma {:induction false} DistinctOnce<T(!new)>(items: seq<T>, id: T -> nat)
    requires Distinct(items, id)
    ensures Once(items)
    decreases |items|
  {
    if items != [] {
      var n := |items| - 1;
      DistinctOnce(items[..n], id);
      assert items == items[..n] + [items[n]];
      OnceConcat(items[..n], [items[n]]);
    }
  }

  lemma {:induction false} InKeyOrderOnce<T(!new)>(latest: map<seq<string>, T>, keys: set<seq<string>>)
    requires keys <= latest.Keys && TotalOrder(TupleLeq)
    requires forall j, k | j in latest && k in latest && latest[j] == latest[k] :: j == k
    ensures Once(InKeyOrder(latest, keys, TupleLeq))
    decreases |keys|
  {
    hide TupleLeq, TotalOrder;
    if keys != {} {
      var least := LeastExists(keys, TupleLeq);
      var k :| k in keys && (forall j | j in keys :: TupleLeq(k, j))
               && InKeyOrder(latest, keys, TupleLeq) == [latest[k]] + InKeyOrder(latest, keys - {k}, TupleLeq);
      InKeyOrderOnce(latest, keys - {k});
      InKeyOrderHolds(latest, keys - {k}, latest[k]);
      OnceConcat([latest[k]], InKeyOrder(latest, keys - {k}, TupleLeq));
    }
  }

  lemma NewestOnce<T(!new)>(items: seq<T>, key: T -> seq<string>, rank: T -> (nat, nat, nat))
    ensures Once(InOrder(Latest(items, key, rank)))
  {
    hide Latest, TupleLeq, Greatest, TotalOrder, Once;
    TupleIsTotal();
    var latest := Latest(items, key, rank);
    forall k | k in latest
      ensures key(latest[k]) == k
    {
      LatestIsGreatest(items, key, rank, k);
      GreatestHas(items, key, rank, k, latest[k]);
    }
    InKeyOrderOnce(latest, latest.Keys);
  }

  /** The part of the classifier that finds this evidence. */
  function Part(e: Evidence): nat {
    match e
    case Head(_) => 0
    case Vote(_) => 1
    case ReviewStop(_, _) => 2
    case IssueCommentStop(_, _) => 3
    case ReviewCommentStop(_, _) => 4
    case FailedCheck(_) => 5
    case FailedStatus(_) => 6
    case Closed => 7
    case Revert(_) => 8
  }

  ghost predicate OfParts(found: seq<Evidence>, low: nat, high: nat) {
    forall e | e in found :: low <= Part(e) < high
  }

  lemma AppendPart(found: seq<Evidence>, part: seq<Evidence>, k: nat)
    requires Once(found) && OfParts(found, 0, k) && IsPart(part, k)
    ensures Once(found + part) && OfParts(found + part, 0, k + 1)
  {
    OnceConcat(found, part);
  }

  /** At most one piece of evidence per item, each of this part and about that item. */
  ghost predicate Yields<T(!new)>(f: T -> seq<Evidence>, k: nat) {
    && (forall x :: |f(x)| <= 1)
    && (forall x, y | f(x) != [] && f(y) != [] && f(x)[0] == f(y)[0] :: x == y)
    && (forall x, e | e in f(x) :: Part(e) == k)
  }

  lemma VotesYield(r: Reading)
    ensures Yields(OfVote(r), 1)
  {
    hide IsMaintainer;
  }

  lemma ReviewsYield(r: Reading)
    ensures Yields(OfReview(r), 2)
  {
    hide IsMaintainer;
  }

  lemma IssueCommentsYield(r: Reading)
    ensures Yields(OfIssueComment(r), 3)
  {
    hide IsMaintainer;
  }

  lemma ReviewCommentsYield(r: Reading)
    ensures Yields(OfReviewComment(r), 4)
  {
    hide IsMaintainer;
  }

  lemma ChecksYield()
    ensures Yields(OfCheck, 5)
  {}

  lemma StatusesYield()
    ensures Yields(OfStatus, 6)
  {}

  lemma ReferencesYield(r: Reading, pr: PullRequest)
    ensures Yields(OfReference(r, pr), 8)
  {
    hide PassedOver;
  }

  lemma CollectPart<T(!new)>(items: seq<T>, f: T -> seq<Evidence>, k: nat)
    requires Once(items) && Yields(f, k)
    ensures IsPart(Collect(items, f), k)
  {
    CollectOnce(items, f);
    forall e | e in Collect(items, f)
      ensures k <= Part(e) < k + 1
    {
      CollectedFrom(items, f, e);
    }
  }

  /** The lists the classifier walks hold nothing twice. */
  ghost predicate ListsOnce(r: Reading, s: Snapshot) {
    && Once(LatestEffectiveReviews(r, s.reviews)) && Once(LatestCheckRuns(r, s.checkRuns))
    && Once(LatestCommitStatuses(r, s.commitStatuses))
    && Once(s.reviews) && Once(s.issueComments) && Once(s.reviewComments) && Once(s.references)
  }

  lemma AllListsOnce(r: Reading, s: Snapshot)
    requires UniqueIds(s)
    ensures ListsOnce(r, s)
  {
    hide Once, Distinct, Collect, Latest, InOrder;
    NewestOnce(Collect(s.reviews, OnlyEffective), ReviewKey(r), ReviewRank);
    NewestOnce(s.checkRuns, CheckKey(r), CheckRank);
    NewestOnce(s.commitStatuses, StatusKey(r), StatusRank);
    DistinctOnce(s.reviews, (x: Review) => x.identifier);
    DistinctOnce(s.issueComments, (x: Comment) => x.identifier);
    DistinctOnce(s.reviewComments, (x: Comment) => x.identifier);
    DistinctOnce(s.references, (x: Reference) => x.identifier);
  }

  ghost predicate IsPart(part: seq<Evidence>, k: nat) {
    Once(part) && OfParts(part, k, k + 1)
  }

  lemma SmallPart(part: seq<Evidence>, k: nat)
    requires |part| <= 1 && forall e | e in part :: Part(e) == k
    ensures IsPart(part, k)
  {}

  lemma PartsOnce(r: Reading, s: Snapshot)
    requires UniqueIds(s)
    ensures IsPart(Collect(LatestEffectiveReviews(r, s.reviews), OfVote(r)), 1)
    ensures IsPart(Collect(s.reviews, OfReview(r)), 2)
    ensures IsPart(Collect(s.issueComments, OfIssueComment(r)), 3)
    ensures IsPart(Collect(s.reviewComments, OfReviewComment(r)), 4)
    ensures IsPart(Collect(LatestCheckRuns(r, s.checkRuns), OfCheck), 5)
    ensures IsPart(Collect(LatestCommitStatuses(r, s.commitStatuses), OfStatus), 6)
    ensures IsPart(Collect(s.references, OfReference(r, s.pullRequest)), 8)
  {
    hide UniqueIds, Once, IsPart, Yields, Collect, OfVote, OfReview, OfIssueComment, OfReviewComment, OfCheck, OfStatus,
         OfReference, LatestEffectiveReviews, LatestCheckRuns, LatestCommitStatuses;
    AllListsOnce(r, s);
    VotesYield(r);
    ReviewsYield(r);
    IssueCommentsYield(r);
    ReviewCommentsYield(r);
    ChecksYield();
    StatusesYield();
    ReferencesYield(r, s.pullRequest);
    CollectPart(LatestEffectiveReviews(r, s.reviews), OfVote(r), 1);
    CollectPart(s.reviews, OfReview(r), 2);
    CollectPart(s.issueComments, OfIssueComment(r), 3);
    CollectPart(s.reviewComments, OfReviewComment(r), 4);
    CollectPart(LatestCheckRuns(r, s.checkRuns), OfCheck, 5);
    CollectPart(LatestCommitStatuses(r, s.commitStatuses), OfStatus, 6);
    CollectPart(s.references, OfReference(r, s.pullRequest), 8);
  }

  /** No evidence is found twice. */
  lemma FoundOnce(r: Reading, s: Snapshot)
    requires UniqueIds(s)
    ensures Once(Found(r, s))
  {
    hide UniqueIds, Once, OfParts, Collect, LatestEffectiveReviews, LatestCheckRuns, LatestCommitStatuses, Pushes.OthersLedToHead;
    PartsOnce(r, s);
    SmallPart(OfHead(r, s), 0);
    SmallPart(OfState(s.pullRequest), 7);
    var f1 := OfHead(r, s) + Collect(LatestEffectiveReviews(r, s.reviews), OfVote(r));
    var f2 := f1 + Collect(s.reviews, OfReview(r));
    var f3 := f2 + Collect(s.issueComments, OfIssueComment(r));
    var f4 := f3 + Collect(s.reviewComments, OfReviewComment(r));
    var f5 := f4 + Collect(LatestCheckRuns(r, s.checkRuns), OfCheck);
    var f6 := f5 + Collect(LatestCommitStatuses(r, s.commitStatuses), OfStatus);
    AppendPart(OfHead(r, s), Collect(LatestEffectiveReviews(r, s.reviews), OfVote(r)), 1);
    AppendPart(f1, Collect(s.reviews, OfReview(r)), 2);
    AppendPart(f2, Collect(s.issueComments, OfIssueComment(r)), 3);
    AppendPart(f3, Collect(s.reviewComments, OfReviewComment(r)), 4);
    AppendPart(f4, Collect(LatestCheckRuns(r, s.checkRuns), OfCheck), 5);
    AppendPart(f5, Collect(LatestCommitStatuses(r, s.commitStatuses), OfStatus), 6);
    AppendPart(f6, OfState(s.pullRequest), 7);
    AppendPart(f6 + OfState(s.pullRequest), Collect(s.references, OfReference(r, s.pullRequest)), 8);
  }

  lemma ReportOnce(r: Reading, s: Snapshot)
    requires UniqueIds(s)
    ensures Once(Collect(Found(r, s), Report(r, s.pullRequest)))
  {
    hide UniqueIds, Once, Found, Collect, Held, KindOf, KeyOf, ReasonOf, SourceOf;
    FoundOnce(r, s);
    var report := Report(r, s.pullRequest);
    forall e, f | e in Found(r, s) && f in Found(r, s) && report(e)[0] == report(f)[0]
      ensures e == f
    {
      FoundIsHeld(r, s, e);
      FoundIsHeld(r, s, f);
      SortKeysDiffer(r, s, e, f);
    }
    CollectOnce(Found(r, s), report);
  }

  lemma OnceMeans<T(!new)>(items: seq<T>, i: nat, j: nat)
    requires Once(items) && i < j < |items|
    ensures items[i] != items[j]
  {
    assert items == items[..j] + items[j..];
    assert multiset(items)[items[i]] == multiset(items[..j])[items[i]] + multiset(items[j..])[items[i]];
    assert items[..j][i] in multiset(items[..j]);
    assert items[j..][0] in multiset(items[j..]);
  }

  /** The result is sorted by kind, key and source, strictly: nothing is reported twice. */
  lemma SignalsAreSorted(r: Reading, s: Snapshot, i: nat, j: nat)
    requires UniqueIds(s) && i < j < |Classify(r, s)|
    ensures var (x, y) := (Classify(r, s)[i], Classify(r, s)[j]);
            var (before, after) := ([KindValue(x.kind), x.evidenceKey, x.sourceUrl], [KindValue(y.kind), y.evidenceKey, y.sourceUrl]);
            TupleLeq(before, after) && before != after
  {
    var (x, y) := (Classify(r, s)[i], Classify(r, s)[j]);
    hide UniqueIds, Found, Collect, Report, TotalOrder, TupleLeq, Once, KindValue;
    var signals := Collect(Found(r, s), Report(r, s.pullRequest));
    TupleIsTotal();
    SortBySorts(signals, SortKey, TupleLeq);
    ReportOnce(r, s);
    SameItems(signals, Classify(r, s));
    OnceMeans(Classify(r, s), i, j);
    assert x in multiset(Classify(r, s)) && y in multiset(Classify(r, s));
    if SortKey(x) == SortKey(y) { SortKeysAreDistinct(r, s, x, y); }
  }

  lemma SameItems<T(!new)>(a: seq<T>, b: seq<T>)
    requires multiset(a) == multiset(b) && Once(a)
    ensures Once(b)
  {}

  /** The kinds in the order of their names. */
  function Place(k: Kind): nat {
    match k
    case AutomationStop => 0
    case ChangesRequested => 1
    case CiFailed => 2
    case ClosedUnmerged => 3
    case HeadDrift => 4
    case MaintainerPush => 5
    case MaintainerStop => 6
    case Reverted => 7
  }

  lemma {:induction false} FirstDifference(a: string, b: string, k: nat)
    requires k < |a| && k < |b| && (forall i | 0 <= i < k :: a[i] == b[i]) && a[k] > b[k]
    ensures !StrLeq(a, b)
    decreases k
  {
    if k > 0 { FirstDifference(a[1..], b[1..], k - 1); }
  }

  lemma FirstLetters(a: Kind, b: Kind)
    requires Place(a) > Place(b) && !(a.MaintainerStop? && b.MaintainerPush?)
    ensures var (x, y) := (KindValue(a), KindValue(b));
            |x| > 1 && |y| > 1 && (x[0] > y[0] || (x[0] == y[0] && x[1] > y[1]))
  {}

  lemma KindsAscend(a: Kind, b: Kind)
    requires StrLeq(KindValue(a), KindValue(b))
    ensures Place(a) <= Place(b)
  {
    hide StrLeq;
    if Place(a) > Place(b) {
      if a.MaintainerStop? && b.MaintainerPush? {
        assert forall i | 0 <= i < 11 :: KindValue(MaintainerStop)[i] == KindValue(MaintainerPush)[i];
        FirstDifference(KindValue(a), KindValue(b), 11);
      } else {
        FirstLetters(a, b);
        FirstDifference(KindValue(a), KindValue(b), if KindValue(a)[0] > KindValue(b)[0] then 0 else 1);
      }
    }
  }

  /** Kind by kind: stops of automation come first, reverts last. */
  lemma KindsAreInOrder(r: Reading, s: Snapshot, i: nat, j: nat)
    requires UniqueIds(s) && i < j < |Classify(r, s)|
    ensures Place(Classify(r, s)[i].kind) <= Place(Classify(r, s)[j].kind)
  {
    hide Classify, KindValue, StrLeq;
    SignalsAreSorted(r, s, i, j);
    var (x, y) := (Classify(r, s)[i], Classify(r, s)[j]);
    FirstIsLeq([KindValue(x.kind), x.evidenceKey, x.sourceUrl], [KindValue(y.kind), y.evidenceKey, y.sourceUrl]);
    KindsAscend(x.kind, y.kind);
  }

  lemma FirstIsLeq(a: seq<string>, b: seq<string>)
    requires a != [] && b != [] && TupleLeq(a, b)
    ensures StrLeq(a[0], b[0])
  {
    StrIsTotal();
  }
}
