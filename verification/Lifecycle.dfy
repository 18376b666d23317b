/** Deterministic signals read from what GitHub shows about a pull request. */
module Lifecycle {
  import opened PyText
  import opened Results
  import opened Ordering
  import opened Seqs
  import Patches
  import Pushes

  datatype Review = Review(identifier: nat, author: string, association: string, state: string, body: string,
                           url: string, submittedAt: Option<nat>)

  datatype Comment = Comment(identifier: nat, author: string, association: string, body: string, url: string, updatedAt: nat)

  datatype CheckRun = CheckRun(identifier: nat, name: string, status: string, conclusion: Option<string>,
                               detailsUrl: string, appName: string, startedAt: Option<nat>)

  datatype CommitStatus = CommitStatus(identifier: nat, context: string, state: string, targetUrl: string,
                                       createdAt: nat, updatedAt: nat)

  datatype Reference = Reference(identifier: nat, url: string, title: string, body: string, state: string, mergedAt: Option<nat>)

  datatype PullRequest = PullRequest(url: string, state: string, merged: bool, mergedAt: Option<nat>,
                                     closedAt: Option<nat>, headSha: string)

  /** Times count from the least `datetime`. */
  datatype Snapshot = Snapshot(
    expectedHeadSha: string, pullRequest: PullRequest, reviews: seq<Review>,
    issueComments: seq<Comment>, reviewComments: seq<Comment>, checkRuns: seq<CheckRun>,
    commitStatuses: seq<CommitStatus>, references: seq<Reference>,
    publishingLogin: Option<string>, headPushes: seq<Pushes.Push>)

  datatype Kind =
    | HeadDrift | MaintainerPush | ChangesRequested | MaintainerStop | AutomationStop
    | CiFailed | ClosedUnmerged | Reverted

  function KindValue(k: Kind): string {
    match k
    case HeadDrift => "head_drift"
    case MaintainerPush => "maintainer_push"
    case ChangesRequested => "changes_requested"
    case MaintainerStop => "maintainer_stop"
    case AutomationStop => "automation_stop"
    case CiFailed => "ci_failed"
    case ClosedUnmerged => "closed_unmerged"
    case Reverted => "reverted"
  }

  datatype Stop = TurnsAway | AsksToClose

  datatype Signal = Signal(kind: Kind, pullRequestUrl: string, evidenceKey: string, reason: string, sourceUrl: string)

  datatype Field = Text(s: string) | Time(t: Option<nat>)

  /** What the reading of text amounts to: case folding, hashing, and the stop and revert patterns. */
  datatype Reading = Reading(
    fold: string -> string, upper: string -> string, version: seq<Field> -> string,
    stop: string -> Option<Stop>, isRevert: (Reference, PullRequest) -> bool,
    quoted: string -> string, isoformat: nat -> string)

  predicate IsMaintainer(r: Reading, author: string, association: string) {
    && r.upper(association) in {"OWNER", "MEMBER", "COLLABORATOR"}
    && var name := r.fold(author); !(|name| >= 5 && name[|name| - 5..] == "[bot]")
  }

  function Moment(t: Option<nat>): nat {
    match t case None => 0 case Some(at) => at
  }

  // ---------------------------------------------------------------- the latest of each kind

  predicate Effective(review: Review) {
    review.state in {"APPROVED", "CHANGES_REQUESTED", "DISMISSED"}
  }

  function OnlyEffective(review: Review): seq<Review> {
    if Effective(review) then [review] else []
  }

  function ReviewRank(review: Review): (nat, nat, nat) {
    (Moment(review.submittedAt), review.identifier, 0)
  }

  function CheckRank(check: CheckRun): (nat, nat, nat) {
    (Moment(check.startedAt), check.identifier, 0)
  }

  function StatusRank(status: CommitStatus): (nat, nat, nat) {
    (status.updatedAt, status.createdAt, status.identifier)
  }

  function ReviewKey(r: Reading): Review -> seq<string> {
    (review: Review) => [r.fold(review.author)]
  }

  function CheckKey(r: Reading): CheckRun -> seq<string> {
    (check: CheckRun) => [r.fold(check.appName), r.fold(check.name)]
  }

  function StatusKey(r: Reading): CommitStatus -> seq<string> {
    (status: CommitStatus) => [r.fold(status.context)]
  }

  ghost function InOrder<T>(latest: map<seq<string>, T>): seq<T> {
    TupleIsTotal();
    InKeyOrder(latest, latest.Keys, TupleLeq)
  }

  ghost function LatestEffectiveReviews(r: Reading, reviews: seq<Review>): seq<Review> {
    InOrder(Latest(Collect(reviews, OnlyEffective), ReviewKey(r), ReviewRank))
  }

  ghost function LatestCheckRuns(r: Reading, checks: seq<CheckRun>): seq<CheckRun> {
    InOrder(Latest(checks, CheckKey(r), CheckRank))
  }

  ghost function LatestCommitStatuses(r: Reading, statuses: seq<CommitStatus>): seq<CommitStatus> {
    InOrder(Latest(statuses, StatusKey(r), StatusRank))
  }

  // ---------------------------------------------------------------- evidence and signals

  /** What a signal is about. */
  datatype Evidence =
    | Head(byOthers: bool)
    | Vote(review: Review)
    | ReviewStop(review: Review, stop: Stop)
    | IssueCommentStop(comment: Comment, stop: Stop)
    | ReviewCommentStop(comment: Comment, stop: Stop)
    | FailedCheck(check: CheckRun)
    | FailedStatus(status: CommitStatus)
    | Closed
    | Revert(reference: Reference)

  function OfVote(r: Reading): Review -> seq<Evidence> {
    (v: Review) => if v.state == "CHANGES_REQUESTED" && IsMaintainer(r, v.author, v.association) then [Vote(v)] else []
  }

  function OfReview(r: Reading): Review -> seq<Evidence> {
    (v: Review) =>
      var stop := r.stop(v.body);
      if stop.Some? && IsMaintainer(r, v.author, v.association) then [ReviewStop(v, stop.value)] else []
  }

  function OfIssueComment(r: Reading): Comment -> seq<Evidence> {
    (c: Comment) =>
      var stop := r.stop(c.body);
      if stop.Some? && IsMaintainer(r, c.author, c.association) then [IssueCommentStop(c, stop.value)] else []
  }

  function OfReviewComment(r: Reading): Comment -> seq<Evidence> {
    (c: Comment) =>
      var stop := r.stop(c.body);
      if stop.Some? && IsMaintainer(r, c.author, c.association) then [ReviewCommentStop(c, stop.value)] else []
  }

  function OfCheck(check: CheckRun): seq<Evidence> {
    if check.status == "completed" && check.conclusion.Some?
       && check.conclusion.value in {"failure", "startup_failure", "timed_out"}
    then [FailedCheck(check)] else []
  }

  function OfStatus(status: CommitStatus): seq<Evidence> {
    if status.state in {"error", "failure"} then [FailedStatus(status)] else []
  }

  predicate PassedOver(r: Reading, pr: PullRequest, ref: Reference) {
    || !pr.merged || pr.mergedAt.None? || ref.state != "closed" || ref.mergedAt.None?
    || ref.mergedAt.value <= pr.mergedAt.value || !r.isRevert(ref, pr)
  }

  function OfReference(r: Reading, pr: PullRequest): Reference -> seq<Evidence> {
    (ref: Reference) => if PassedOver(r, pr, ref) then [] else [Revert(ref)]
  }

  ghost function OfHead(r: Reading, s: Snapshot): seq<Evidence> {
    if r.fold(s.pullRequest.headSha) == r.fold(s.expectedHeadSha) then []
    else [Head(Pushes.OthersLedToHead(PushRecord(r, s)))]
  }

  function PushRecord(r: Reading, s: Snapshot): Pushes.Snapshot {
    Pushes.Snapshot(s.publishingLogin, s.pullRequest.headSha, s.expectedHeadSha, s.headPushes, r.fold)
  }

  function OfState(pr: PullRequest): seq<Evidence> {
    if pr.state == "closed" && !pr.merged then [Closed] else []
  }

  /** Everything `classify_lifecycle` reports, in the order its loops find it. */
  ghost function Found(r: Reading, s: Snapshot): seq<Evidence> {
    OfHead(r, s)
    + Collect(LatestEffectiveReviews(r, s.reviews), OfVote(r))
    + Collect(s.reviews, OfReview(r))
    + Collect(s.issueComments, OfIssueComment(r))
    + Collect(s.reviewComments, OfReviewComment(r))
    + Collect(LatestCheckRuns(r, s.checkRuns), OfCheck)
    + Collect(LatestCommitStatuses(r, s.commitStatuses), OfStatus)
    + OfState(s.pullRequest)
    + Collect(s.references, OfReference(r, s.pullRequest))
  }

  function KeyText(prefix: string, id: nat, tail: string): string {
    prefix + ":" + Patches.Decimal(id) + (":" + tail)
  }

  function StopKind(stop: Stop): Kind {
    match stop case TurnsAway => AutomationStop case AsksToClose => MaintainerStop
  }

  function StopReason(stop: Stop): string {
    match stop
    case TurnsAway => "turns away automated or AI contributions"
    case AsksToClose => "asks to close or stop this pull request"
  }

  function KindOf(e: Evidence): Kind {
    match e
    case Head(byOthers) => if byOthers then MaintainerPush else HeadDrift
    case Vote(_) => ChangesRequested
    case ReviewStop(_, stop) => StopKind(stop)
    case IssueCommentStop(_, stop) => StopKind(stop)
    case ReviewCommentStop(_, stop) => StopKind(stop)
    case FailedCheck(_) => CiFailed
    case FailedStatus(_) => CiFailed
    case Closed => ClosedUnmerged
    case Revert(_) => Reverted
  }

  function KeyOf(r: Reading, pr: PullRequest, e: Evidence): string {
    match e
    case Head(_) => r.fold(pr.headSha)
    case Vote(v) =>
      KeyText("review", v.identifier, r.version([Text(v.author), Text(v.association), Text(v.state), Text(v.body), Time(v.submittedAt)]))
    case ReviewStop(v, _) =>
      KeyText("review-stop", v.identifier, r.version([Text(v.author), Text(v.association), Text(v.body), Time(v.submittedAt)]))
    case IssueCommentStop(c, _) =>
      KeyText("issue-comment", c.identifier, r.version([Text(c.author), Text(c.association), Text(c.body), Time(Some(c.updatedAt))]))
    case ReviewCommentStop(c, _) =>
      KeyText("review-comment", c.identifier, r.version([Text(c.author), Text(c.association), Text(c.body), Time(Some(c.updatedAt))]))
    case FailedCheck(c) => KeyText("check-run", c.identifier, if c.conclusion.Some? then c.conclusion.value else "None")
    case FailedStatus(st) => KeyText("commit-status", st.identifier, st.state)
    case Closed => "closed:" + (if pr.closedAt.Some? then r.isoformat(pr.closedAt.value) else "unknown")
    case Revert(ref) => KeyText("revert-reference", ref.identifier, r.version([Text(ref.title), Text(ref.body), Time(ref.mergedAt)]))
  }

  function ReasonOf(r: Reading, e: Evidence): string {
    match e
    case Head(byOthers) =>
      if byOthers then "Someone with push access to the repository added commits to this PR"
      else "Published pull-request head no longer matches the prepared commit, and "
           + "GitHub does not show that every push since then came from another account"
    case Vote(_) => "A maintainer submitted a changes-requested review"
    case ReviewStop(_, stop) => "A maintainer review " + StopReason(stop)
    case IssueCommentStop(_, stop) => "A maintainer comment " + StopReason(stop)
    case ReviewCommentStop(_, stop) => "A maintainer comment " + StopReason(stop)
    case FailedCheck(c) =>
      "Latest CI check " + r.quoted(c.name) + " completed with " + (if c.conclusion.Some? then c.conclusion.value else "None")
    case FailedStatus(st) => "Latest commit status " + r.quoted(st.context) + " is " + st.state
    case Closed => "Pull request was closed without being merged"
    case Revert(_) => "A merged pull request explicitly reverts this contribution"
  }

  function OrElse(url: string, fallback: string): string {
    if url != "" then url else fallback
  }

  function SourceOf(pr: PullRequest, e: Evidence): string {
    match e
    case Head(_) => pr.url
    case Vote(v) => v.url
    case ReviewStop(v, _) => v.url
    case IssueCommentStop(c, _) => c.url
    case ReviewCommentStop(c, _) => c.url
    case FailedCheck(c) => OrElse(c.detailsUrl, pr.url)
    case FailedStatus(st) => OrElse(st.targetUrl, pr.url)
    case Closed => pr.url
    case Revert(ref) => ref.url
  }

  function Report(r: Reading, pr: PullRequest): Evidence -> seq<Signal> {
    (e: Evidence) => [Signal(KindOf(e), pr.url, KeyOf(r, pr, e), ReasonOf(r, e), SourceOf(pr, e))]
  }

  function SortKey(signal: Signal): seq<string> {
    [KindValue(signal.kind), signal.evidenceKey, signal.sourceUrl]
  }

  /** `_ordered`. */
  function Ordered(signals: seq<Signal>): seq<Signal> {
    SortBy(signals, SortKey, TupleLeq)
  }

  /** `classify_lifecycle`. */
  ghost function Classify(r: Reading, s: Snapshot): seq<Signal> {
    Ordered(Collect(Found(r, s), Report(r, s.pullRequest)))
  }

  // ---------------------------------------------------------------- the Python loops

  method AppendAll<T, U>(items: seq<T>, f: T -> seq<U>) returns (all: seq<U>)
    ensures all == Collect(items, f)
  {
    all := [];
    for i := 0 to |items|
      invariant all == Collect(items[..i], f)
    {
      assert items[..i + 1][..i] == items[..i];
      all := all + f(items[i]);
    }
    assert items[..|items|] == items;
  }

  method ValuesInKeyOrder<T>(latest: map<seq<string>, T>) returns (values: seq<T>)
    ensures values == InOrder(latest)
  {
    TupleIsTotal();
    hide TupleLeq, TotalOrder, InKeyOrder;
    var keys := latest.Keys;
    values := [];
    assert [] + InOrder(latest) == InOrder(latest);
    while keys != {}
      invariant keys <= latest.Keys
      invariant InOrder(latest) == values + InKeyOrder(latest, keys, TupleLeq)
      decreases |keys|
    {
      ghost var least := LeastExists(keys, TupleLeq);
      var key :| key in keys && forall j | j in keys :: TupleLeq(key, j);
      LeastIsNext(latest, keys, key, values);
      values := values + [latest[key]];
      keys := keys - {key};
    }
    NoKeysLeft(latest);
    assert values + [] == values;
  }

  lemma NoKeysLeft<T>(latest: map<seq<string>, T>)
    requires TotalOrder(TupleLeq)
    ensures InKeyOrder(latest, {}, TupleLeq) == []
  {}

  lemma LeastIsNext<T>(latest: map<seq<string>, T>, keys: set<seq<string>>, key: seq<string>, values: seq<T>)
    requires keys <= latest.Keys && TotalOrder(TupleLeq) && key in keys && forall j | j in keys :: TupleLeq(key, j)
    ensures values + InKeyOrder(latest, keys, TupleLeq) == values + [latest[key]] + InKeyOrder(latest, keys - {key}, TupleLeq)
  {
    hide TupleLeq;
    forall k | k in keys && forall j | j in keys :: TupleLeq(k, j)
      ensures k == key
    {
      assert TupleLeq(k, key) && TupleLeq(key, k);
    }
    assert InKeyOrder(latest, keys, TupleLeq) == [latest[key]] + InKeyOrder(latest, keys - {key}, TupleLeq);
  }

  method ClassifyLifecycle(r: Reading, s: Snapshot) returns (signals: seq<Signal>)
    ensures signals == Classify(r, s)
  {
    hide Collect, Ordered, Report, Latest, InOrder, Pushes.OthersLedToHead;
    var pr := s.pullRequest;
    var found: seq<Evidence> := [];
    if r.fold(pr.headSha) != r.fold(s.expectedHeadSha) {
      var byOthers := Pushes.PushedByOthers(PushRecord(r, s));
      found := [Head(byOthers)];
    }
    assert found == OfHead(r, s);
    var effective := AppendAll(s.reviews, OnlyEffective);
    var latestReviews := LatestPerKey(effective, ReviewKey(r), ReviewRank);
    var reviews := ValuesInKeyOrder(latestReviews);
    var part := AppendAll(reviews, OfVote(r));
    found := found + part;
    part := AppendAll(s.reviews, OfReview(r));
    found := found + part;
    part := AppendAll(s.issueComments, OfIssueComment(r));
    found := found + part;
    part := AppendAll(s.reviewComments, OfReviewComment(r));
    found := found + part;
    var latestChecks := LatestPerKey(s.checkRuns, CheckKey(r), CheckRank);
    var checks := ValuesInKeyOrder(latestChecks);
    part := AppendAll(checks, OfCheck);
    found := found + part;
    var latestStatuses := LatestPerKey(s.commitStatuses, StatusKey(r), StatusRank);
    var statuses := ValuesInKeyOrder(latestStatuses);
    part := AppendAll(statuses, OfStatus);
    found := found + part + OfState(pr);
    part := AppendAll(s.references, OfReference(r, pr));
    found := found + part;
    signals := AppendAll(found, Report(r, pr));
    signals := Ordered(signals);
  }

  // ---------------------------------------------------------------- distinct sort keys

  predicate NoColon(s: string) {
    forall k | 0 <= k < |s| :: s[k] != ':'
  }

  lemma KeyPrefix(prefix: string, id: nat, tail: string)
    ensures var text := KeyText(prefix, id, tail);
            |prefix| < |text| && text[|prefix|] == ':' && StartsWithAt(text, prefix, 0)
  {
    hide Patches.Decimal, StartsWithAt;
    Regroup(prefix + ":", Patches.Decimal(id), ":" + tail);
    PrefixText(prefix, Patches.Decimal(id) + (":" + tail));
  }

  lemma PrefixText(prefix: string, rest: string)
    ensures var text := (prefix + ":") + rest; |prefix| < |text| && text[|prefix|] == ':' && StartsWithAt(text, prefix, 0)
  {}

  lemma IdDigits(front: string, id: nat, back: string)
    requires back != "" && back[0] == ':'
    ensures var (text, at) := (front + Patches.Decimal(id) + back, |front|);
            && Patches.DigitRun(text, at) == |Patches.Decimal(id)|
            && Patches.Value(text[at..at + Patches.DigitRun(text, at)]) == id
  {
    hide Patches.Decimal, Patches.DigitRun, Patches.Value, StartsWithAt;
    Middle(front, Patches.Decimal(id), back);
    Patches.ReadsDecimal(front + Patches.Decimal(id) + back, |front|, id);
  }

  lemma Middle(a: string, b: string, c: string)
    ensures StartsWithAt(a + b + c, b, |a|) && (c != "" ==> (a + b + c)[|a| + |b|] == c[0])
  {
    assert forall k | 0 <= k < |b| :: (a + b + c)[|a| + k] == b[k];
  }

  lemma NoColonInside(text: string, p: string, k: nat)
    requires NoColon(p) && StartsWithAt(text, p, 0) && k < |p|
    ensures text[k] != ':'
  {
    assert text[0 + k] == p[k];
  }

  lemma PrefixEndsAtColon(text: string, p: string, q: string)
    requires NoColon(p) && NoColon(q) && |p| < |text| && |q| < |text|
    requires StartsWithAt(text, p, 0) && StartsWithAt(text, q, 0) && text[|p|] == ':' && text[|q|] == ':'
    ensures p == q
  {
    if |p| < |q| { NoColonInside(text, q, |p|); }
    if |q| < |p| { NoColonInside(text, p, |q|); }
    assert forall k | 0 <= k < |p| && k < |q| :: p[k] == text[0 + k] && q[k] == text[0 + k];
  }

  lemma KeyTextsDiffer(p: string, i: nat, t: string, q: string, j: nat, u: string)
    requires NoColon(p) && NoColon(q) && KeyText(p, i, t) == KeyText(q, j, u)
    ensures p == q && i == j
  {
    KeyPrefix(p, i, t);
    KeyPrefix(q, j, u);
    IdDigits(p + ":", i, ":" + t);
    IdDigits(q + ":", j, ":" + u);
    assert KeyText(p, i, t) == p + ":" + Patches.Decimal(i) + (":" + t);
    assert KeyText(q, j, u) == q + ":" + Patches.Decimal(j) + (":" + u);
    hide KeyText, NoColon, StartsWithAt, Patches.Decimal, Patches.DigitRun, Patches.Value;
    PrefixEndsAtColon(KeyText(p, i, t), p, q);
  }

  lemma KindValuesDiffer(a: Kind, b: Kind)
    requires KindValue(a) == KindValue(b)
    ensures a == b
  {
    assert |KindValue(HeadDrift)| == 10 && |KindValue(MaintainerPush)| == 15 && |KindValue(ChangesRequested)| == 17
        && |KindValue(CiFailed)| == 9 && |KindValue(ClosedUnmerged)| == 15 && |KindValue(Reverted)| == 8;
    assert |KindValue(MaintainerStop)| == 15 && |KindValue(AutomationStop)| == 15;
    assert KindValue(MaintainerPush)[11] == 'p' && KindValue(MaintainerStop)[11] == 's' && KindValue(AutomationStop)[11] == 's';
    assert KindValue(ClosedUnmerged)[11] == 'r' && KindValue(MaintainerStop)[0] == 'm' && KindValue(AutomationStop)[0] == 'a';
  }

  /** The prefix and the identifier in the key of evidence that has one. */
  function Mark(e: Evidence): Option<(string, nat)> {
    match e
    case Head(_) => None
    case Vote(v) => Some(("review", v.identifier))
    case ReviewStop(v, _) => Some(("review-stop", v.identifier))
    case IssueCommentStop(c, _) => Some(("issue-comment", c.identifier))
    case ReviewCommentStop(c, _) => Some(("review-comment", c.identifier))
    case FailedCheck(c) => Some(("check-run", c.identifier))
    case FailedStatus(st) => Some(("commit-status", st.identifier))
    case Closed => None
    case Revert(ref) => Some(("revert-reference", ref.identifier))
  }

  lemma KeyHasMark(r: Reading, pr: PullRequest, e: Evidence) returns (tail: string)
    requires Mark(e).Some?
    ensures KeyOf(r, pr, e) == KeyText(Mark(e).value.0, Mark(e).value.1, tail) && NoColon(Mark(e).value.0)
  {
    hide KeyText;
    match e
    case Vote(v) => tail := r.version([Text(v.author), Text(v.association), Text(v.state), Text(v.body), Time(v.submittedAt)]);
    case ReviewStop(v, _) => tail := r.version([Text(v.author), Text(v.association), Text(v.body), Time(v.submittedAt)]);
    case IssueCommentStop(c, _) => tail := r.version([Text(c.author), Text(c.association), Text(c.body), Time(Some(c.updatedAt))]);
    case ReviewCommentStop(c, _) => tail := r.version([Text(c.author), Text(c.association), Text(c.body), Time(Some(c.updatedAt))]);
    case FailedCheck(c) => tail := if c.conclusion.Some? then c.conclusion.value else "None";
    case FailedStatus(st) => tail := st.state;
    case Revert(ref) => tail := r.version([Text(ref.title), Text(ref.body), Time(ref.mergedAt)]);
  }

  // ---------------------------------------------------------------- the order of the input does not matter

  predicate Distinct<T>(items: seq<T>, id: T -> nat) {
    forall i, j | 0 <= i < |items| && 0 <= j < |items| && id(items[i]) == id(items[j]) :: i == j
  }

  /** GitHub's identifiers are unique within each list. */
  predicate UniqueIds(s: Snapshot) {
    && Distinct(s.reviews, (x: Review) => x.identifier)
    && Distinct(s.issueComments, (x: Comment) => x.identifier)
    && Distinct(s.reviewComments, (x: Comment) => x.identifier)
    && Distinct(s.checkRuns, (x: CheckRun) => x.identifier)
    && Distinct(s.commitStatuses, (x: CommitStatus) => x.identifier)
    && Distinct(s.references, (x: Reference) => x.identifier)
  }

  /** The same lists in any order; GitHub's record of pushes has a meaningful one. */
  ghost predicate Shuffled(a: Snapshot, b: Snapshot) {
    && multiset(a.reviews) == multiset(b.reviews)
    && multiset(a.issueComments) == multiset(b.issueComments)
    && multiset(a.reviewComments) == multiset(b.reviewComments)
    && multiset(a.checkRuns) == multiset(b.checkRuns)
    && multiset(a.commitStatuses) == multiset(b.commitStatuses)
    && multiset(a.references) == multiset(b.references)
    && a == b.(reviews := a.reviews, issueComments := a.issueComments, reviewComments := a.reviewComments,
               checkRuns := a.checkRuns, commitStatuses := a.commitStatuses, references := a.references)
  }

  /** The evidence comes from the snapshot. */
  ghost predicate Held(r: Reading, s: Snapshot, e: Evidence) {
    match e
    case Head(byOthers) => byOthers == Pushes.OthersLedToHead(PushRecord(r, s))
    case Vote(v) => v in s.reviews
    case ReviewStop(v, stop) => v in s.reviews && r.stop(v.body) == Some(stop)
    case IssueCommentStop(c, stop) => c in s.issueComments && r.stop(c.body) == Some(stop)
    case ReviewCommentStop(c, stop) => c in s.reviewComments && r.stop(c.body) == Some(stop)
    case FailedCheck(c) => c in s.checkRuns
    case FailedStatus(st) => st in s.commitStatuses
    case Closed => true
    case Revert(ref) => ref in s.references
  }

  lemma {:induction false} InKeyOrderFrom<T>(latest: map<seq<string>, T>, keys: set<seq<string>>, x: T)
    requires keys <= latest.Keys && TotalOrder(TupleLeq) && x in InKeyOrder(latest, keys, TupleLeq)
    ensures exists k :: k in latest && latest[k] == x
    decreases |keys|
  {
    hide TupleLeq, TotalOrder;
    var least := LeastExists(keys, TupleLeq);
    var k :| k in keys && (forall j | j in keys :: TupleLeq(k, j))
             && InKeyOrder(latest, keys, TupleLeq) == [latest[k]] + InKeyOrder(latest, keys - {k}, TupleLeq);
    if x != latest[k] { InKeyOrderFrom(latest, keys - {k}, x); }
  }

  lemma InOrderFrom<T>(items: seq<T>, key: T -> seq<string>, rank: T -> (nat, nat, nat), x: T)
    requires x in InOrder(Latest(items, key, rank))
    ensures x in items
  {
    hide Latest, TupleLeq;
    TupleIsTotal();
    var latest := Latest(items, key, rank);
    InKeyOrderFrom(latest, latest.Keys, x);
    var k :| k in latest && latest[k] == x;
    LatestIsGreatest(items, key, rank, k);
  }

  lemma FoundIsHeld(r: Reading, s: Snapshot, e: Evidence)
    requires e in Found(r, s)
    ensures Held(r, s, e)
  {
    hide Collect, InOrder, Latest, Pushes.OthersLedToHead;
    var votes, checks := LatestEffectiveReviews(r, s.reviews), LatestCheckRuns(r, s.checkRuns);
    var statuses := LatestCommitStatuses(r, s.commitStatuses);
    CollectedFrom(votes, OfVote(r), e);
    CollectedFrom(s.reviews, OfReview(r), e);
    CollectedFrom(s.issueComments, OfIssueComment(r), e);
    CollectedFrom(s.reviewComments, OfReviewComment(r), e);
    CollectedFrom(checks, OfCheck, e);
    CollectedFrom(statuses, OfStatus, e);
    CollectedFrom(s.references, OfReference(r, s.pullRequest), e);
    match e
    case Vote(v) =>
      InOrderFrom(Collect(s.reviews, OnlyEffective), ReviewKey(r), ReviewRank, v);
      CollectedFrom(s.reviews, OnlyEffective, v);
    case FailedCheck(c) => InOrderFrom(s.checkRuns, CheckKey(r), CheckRank, c);
    case FailedStatus(st) => InOrderFrom(s.commitStatuses, StatusKey(r), StatusRank, st);
    case _ =>
  }

  lemma SameItem<T>(items: seq<T>, id: T -> nat, x: T, y: T)
    requires Distinct(items, id) && x in items && y in items && id(x) == id(y)
    ensures x == y
  {}

  lemma MarksDiffer(r: Reading, s: Snapshot, e: Evidence, f: Evidence)
    requires UniqueIds(s) && Held(r, s, e) && Held(r, s, f) && Mark(e) == Mark(f) && Mark(e).Some?
    ensures e == f
  {
    hide Distinct, Pushes.OthersLedToHead;
    match (e, f)
    case (Vote(v), Vote(w)) => SameItem(s.reviews, (x: Review) => x.identifier, v, w);
    case (ReviewStop(v, _), ReviewStop(w, _)) => SameItem(s.reviews, (x: Review) => x.identifier, v, w);
    case (IssueCommentStop(v, _), IssueCommentStop(w, _)) => SameItem(s.issueComments, (x: Comment) => x.identifier, v, w);
    case (ReviewCommentStop(v, _), ReviewCommentStop(w, _)) => SameItem(s.reviewComments, (x: Comment) => x.identifier, v, w);
    case (FailedCheck(v), FailedCheck(w)) => SameItem(s.checkRuns, (x: CheckRun) => x.identifier, v, w);
    case (FailedStatus(v), FailedStatus(w)) => SameItem(s.commitStatuses, (x: CommitStatus) => x.identifier, v, w);
    case (Revert(v), Revert(w)) => SameItem(s.references, (x: Reference) => x.identifier, v, w);
    case _ =>
  }

  /** Two signals that sort alike are the same signal. */
  lemma SortKeysDiffer(r: Reading, s: Snapshot, e: Evidence, f: Evidence)
    requires UniqueIds(s) && Held(r, s, e) && Held(r, s, f)
    requires KindOf(e) == KindOf(f) && KeyOf(r, s.pullRequest, e) == KeyOf(r, s.pullRequest, f)
    ensures e == f
  {
    hide UniqueIds, KeyOf, Pushes.OthersLedToHead;
    if Mark(e).Some? && Mark(f).Some? {
      var t := KeyHasMark(r, s.pullRequest, e);
      var u := KeyHasMark(r, s.pullRequest, f);
      KeyTextsDiffer(Mark(e).value.0, Mark(e).value.1, t, Mark(f).value.0, Mark(f).value.1, u);
      hide Held;
      MarksDiffer(r, s, e, f);
    }
  }

  lemma SortKeysAreDistinct(r: Reading, s: Snapshot, x: Signal, y: Signal)
    requires UniqueIds(s)
    requires x in Collect(Found(r, s), Report(r, s.pullRequest)) && y in Collect(Found(r, s), Report(r, s.pullRequest))
    requires SortKey(x) == SortKey(y)
    ensures x == y
  {
    hide KindValue, Found, Collect, UniqueIds, Held, KindOf, KeyOf, ReasonOf, SourceOf;
    var pr := s.pullRequest;
    assert SortKey(x)[0] == SortKey(y)[0] && SortKey(x)[1] == SortKey(y)[1];
    KindValuesDiffer(x.kind, y.kind);
    CollectedFrom(Found(r, s), Report(r, pr), x);
    CollectedFrom(Found(r, s), Report(r, pr), y);
    var e :| e in Found(r, s) && x in Report(r, pr)(e);
    var f :| f in Found(r, s) && y in Report(r, pr)(f);
    FoundIsHeld(r, s, e);
    FoundIsHeld(r, s, f);
    SortKeysDiffer(r, s, e, f);
  }

  lemma RanksAreDistinct(r: Reading, s: Snapshot)
    requires UniqueIds(s)
    ensures DistinctRanks(s.checkRuns, CheckRank) && DistinctRanks(s.commitStatuses, StatusRank)
    ensures DistinctRanks(Collect(s.reviews, OnlyEffective), ReviewRank)
  {
    EffectiveRanksAreDistinct(s.reviews);
  }

  lemma {:induction false} EffectiveRanksAreDistinct(reviews: seq<Review>)
    requires Distinct(reviews, (x: Review) => x.identifier)
    ensures DistinctRanks(Collect(reviews, OnlyEffective), ReviewRank)
    decreases |reviews|
  {
    if reviews != [] {
      var n := |reviews| - 1;
      EffectiveRanksAreDistinct(reviews[..n]);
      var kept := Collect(reviews[..n], OnlyEffective);
      forall i | 0 <= i < |kept|
        ensures ReviewRank(kept[i]) != ReviewRank(reviews[n])
      {
        CollectedFrom(reviews[..n], OnlyEffective, kept[i]);
      }
    }
  }

  /** The latest reviews, checks and statuses do not depend on the order GitHub lists them in. */
  lemma LatestIgnoreOrder(r: Reading, a: Snapshot, b: Snapshot)
    requires UniqueIds(a) && Shuffled(a, b)
    ensures LatestEffectiveReviews(r, a.reviews) == LatestEffectiveReviews(r, b.reviews)
    ensures LatestCheckRuns(r, a.checkRuns) == LatestCheckRuns(r, b.checkRuns)
    ensures LatestCommitStatuses(r, a.commitStatuses) == LatestCommitStatuses(r, b.commitStatuses)
  {
    RanksAreDistinct(r, a);
    hide UniqueIds, Collect, Latest, InOrder, DistinctRanks;
    CollectIgnoresOrder(a.reviews, b.reviews, OnlyEffective);
    LatestIgnoresOrder(Collect(a.reviews, OnlyEffective), Collect(b.reviews, OnlyEffective), ReviewKey(r), ReviewRank);
    LatestIgnoresOrder(a.checkRuns, b.checkRuns, CheckKey(r), CheckRank);
    LatestIgnoresOrder(a.commitStatuses, b.commitStatuses, StatusKey(r), StatusRank);
  }

  lemma FoundIgnoresOrder(r: Reading, a: Snapshot, b: Snapshot)
    requires UniqueIds(a) && Shuffled(a, b)
    ensures multiset(Found(r, a)) == multiset(Found(r, b))
  {
    hide UniqueIds, Collect, OfState, LatestEffectiveReviews, LatestCheckRuns, LatestCommitStatuses, Pushes.OthersLedToHead;
    CollectIgnoresOrder(a.reviews, b.reviews, OfReview(r));
    CollectIgnoresOrder(a.issueComments, b.issueComments, OfIssueComment(r));
    CollectIgnoresOrder(a.reviewComments, b.reviewComments, OfReviewComment(r));
    CollectIgnoresOrder(a.references, b.references, OfReference(r, a.pullRequest));
    LatestIgnoreOrder(r, a, b);
  }

  /** Every permutation of the lists gives the same tuple of signals. */
  lemma ClassifyIgnoresOrder(r: Reading, a: Snapshot, b: Snapshot)
    requires UniqueIds(a) && Shuffled(a, b)
    ensures Classify(r, a) == Classify(r, b)
  {
    FoundIgnoresOrder(r, a, b);
    assert a.pullRequest == b.pullRequest;
    hide UniqueIds, Found, Collect, Report, Shuffled;
    var report := Report(r, a.pullRequest);
    CollectIgnoresOrder(Found(r, a), Found(r, b), report);
    var signals := Collect(Found(r, a), report);
    forall x, y | x in signals && y in signals && SortKey(x) == SortKey(y)
      ensures x == y
    {
      SortKeysAreDistinct(r, a, x, y);
    }
    OrderedIgnoresOrder(signals, Collect(Found(r, b), report));
  }

  lemma OrderedIgnoresOrder(a: seq<Signal>, b: seq<Signal>)
    requires multiset(a) == multiset(b)
    requires forall x, y | x in a && y in a && SortKey(x) == SortKey(y) :: x == y
    ensures Ordered(a) == Ordered(b)
  {
    TupleIsTotal();
    hide TupleLeq, TotalOrder, SortKey;
    SortIgnoresOrder(a, b, SortKey, TupleLeq);
  }
}
