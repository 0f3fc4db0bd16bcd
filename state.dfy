/**
 * The reconciliation decisions of `State`: `pullImage`'s reading of a pull
 * reply, and `apply` as a step machine over already-classified runtime
 * answers (inspect, then create, then pull, then a fresh `apply`).
 */
module State {
  import opened Wrappers

  /** A deployment unit: its namespace and its persistent storage (`_id` is the container id). */
  datatype Scope = Scope(namespace: string, storage: map<string, string>)

  /** The desired container: `config.create` holds the creation options, `Image` among them. */
  datatype Config = Config(create: map<string, string>)

  /** The errors `apply` and `pullImage` hand to their callbacks. */
  datatype Error =
    | Connectivity(code: string, syscall: string)
    | Validation(message: string)
    | Remote(message: string)

  /** What inspecting the stored container id reports. */
  datatype InspectOutcome = ConnErr(code: string, syscall: string) | NotFound | Found

  /** What creating the container reports; not-found means the image is missing. */
  datatype CreateOutcome = Created | ImageNotFound | Other(err: Error)

  /** What the image pull returns: a reply body (its JSON fields) or a failed request. */
  datatype PullReply = Replied(body: map<string, string>) | Failed(err: Error)

  /** The runtime's answers for one pass of `apply`; an answer no step asks for is ignored. */
  datatype Answers = Answers(inspect: InspectOutcome, create: CreateOutcome, pull: PullReply)

  /**
   * A point of one `apply` pass: a runtime call about to be made (`Inspect`,
   * `Create`, `Pull`) or how the pass ends (`CallEnsure`, `ReApply` from the
   * pull continuation, `Fail` to the caller).
   */
  datatype Next =
    | Inspect(id: Option<string>)
    | Create(options: map<string, string>)
    | Pull(image: string)
    | CallEnsure
    | ReApply(scope: Scope, config: Config)
    | Fail(err: Error)
  {
    predicate Terminal() {
      CallEnsure? || ReApply? || Fail?
    }
  }

  /** The kinds of `Next`, for counting calls in a trace. */
  datatype Kind = InspectKind | CreateKind | PullKind | EnsureKind | ReApplyKind | FailKind

  function KindOf(n: Next): Kind {
    match n
    case Inspect(_) => InspectKind
    case Create(_) => CreateKind
    case Pull(_) => PullKind
    case CallEnsure => EnsureKind
    case ReApply(_, _) => ReApplyKind
    case Fail(_) => FailKind
  }

  /** How many points of kind `k` a trace holds. */
  function Count(t: seq<Next>, k: Kind): nat {
    if t == [] then 0 else (if KindOf(t[0]) == k then 1 else 0) + Count(t[1..], k)
  }

  lemma {:induction false} CountAppend(s: seq<Next>, t: seq<Next>, k: Kind)
    ensures Count(s + t, k) == Count(s, k) + Count(t, k)
  {
    if s == [] {
      assert s + t == t;
    } else {
      assert (s + t)[1..] == s[1..] + t;
      CountAppend(s[1..], t, k);
    }
  }

  /** The container id remembered in the scope's storage. */
  function StoredId(scope: Scope): (id: Option<string>)
    ensures id.Some? <==> "_id" in scope.storage
    ensures id.Some? ==> id.value == scope.storage["_id"]
  {
    if "_id" in scope.storage then Some(scope.storage["_id"]) else None
  }

  /** The image reference `config.create.Image`, if configured. */
  function ImageOf(config: Config): (image: Option<string>)
    ensures image.Some? <==> "Image" in config.create
    ensures image.Some? ==> image.value == config.create["Image"]
  {
    if "Image" in config.create then Some(config.create["Image"]) else None
  }

  /** The validation error of creation options without an image. */
  const MissingImageMessage := "Missing" + " config.create." + "Image"

  /** `w` occurs in `s` starting at index `i`. */
  predicate At(s: string, i: int, w: string) {
    0 <= i && i + |w| <= |s| && s[i..i + |w|] == w
  }

  ghost predicate Contains(s: string, w: string) {
    exists i :: At(s, i, w)
  }

  /** A JavaScript line terminator, which the regular-expression `.` does not match. */
  predicate LineTerminator(c: char) {
    c == '\n' || c == '\r' || c == '\U{2028}' || c == '\U{2029}'
  }

  predicate NoLineTerminator(s: string) {
    forall k :: 0 <= k < |s| ==> !LineTerminator(s[k])
  }

  /** `s` matches the regular expression `/Missing.+Image/`. */
  ghost predicate MatchesMissingImage(s: string) {
    exists i, j :: At(s, i, "Missing") && At(s, j, "Image") && i + 7 < j && NoLineTerminator(s[i + 7..j])
  }

  lemma MissingImageMessageMatches()
    ensures MatchesMissingImage(MissingImageMessage)
  {
    var s := MissingImageMessage;
    var middle := " config.create.";
    assert |middle| == 15;
    assert s[0..7] == "Missing";
    assert s[22..27] == "Image";
    assert s[7..22] == middle;
    assert NoLineTerminator(middle);
    assert At(s, 0, "Missing") && At(s, 22, "Image");
  }

  /** A line terminator between the two words defeats the match, as the regular-expression `.` does. */
  lemma CarriageReturnDoesNotMatch()
    ensures !MatchesMissingImage("Missing\rImage")
  {
    var s := "Missing\rImage";
    forall i, j | At(s, i, "Missing") && At(s, j, "Image") && i + 7 < j
      ensures !NoLineTerminator(s[i + 7..j])
    {
      assert s[i] == 'M' && s[j] == 'I';
      assert i == 0 && j == 8;
      assert s[i + 7..j][0] == '\r';
    }
  }

  /**
   * `pullImage`'s callback error: a reply whose body carries an `error`
   * field is an error with that text, any other reply is no error, and a
   * failed request is passed on.
   */
  function PullImage(reply: PullReply): (err: Option<Error>)
    ensures reply.Replied? ==> (err.Some? <==> "error" in reply.body)
    ensures reply.Replied? && "error" in reply.body ==> err == Some(Remote(reply.body["error"]))
    ensures reply.Failed? ==> err == Some(reply.err)
  {
    match reply
    case Replied(body) => if "error" in body then Some(Remote(body["error"])) else None
    case Failed(e) => Some(e)
  }

  /** An in-band `error` field gives an error whose message contains its text. */
  lemma PullErrorMessageContainsText(body: map<string, string>)
    requires "error" in body
    ensures PullImage(Replied(body)).Some?
    ensures PullImage(Replied(body)).value.Remote?
    ensures Contains(PullImage(Replied(body)).value.message, body["error"])
  {
    assert At(body["error"], 0, body["error"]);
  }

  /** A reply body without an `error` field gives a null error. */
  lemma PullWithoutErrorIsNull(body: map<string, string>)
    requires "error" !in body
    ensures PullImage(Replied(body)) == None
  {
  }

  /** A `Create` point always carries an image to pull. */
  predicate Ready(n: Next) {
    n.Create? ==> "Image" in n.options
  }

  /** Inspect, create and pull come in this order; a terminal point has rank 0. */
  function Rank(n: Next): nat {
    match n
    case Inspect(_) => 3
    case Create(_) => 2
    case Pull(_) => 1
    case _ => 0
  }

  /**
   * One transition of `apply`: make the runtime call `n` names, read its
   * answer from `a`, and decide what comes next.
   */
  function Step(scope: Scope, config: Config, a: Answers, n: Next): (r: Next)
    requires Ready(n) && !n.Terminal()
    ensures Ready(r) && Rank(r) < Rank(n)
  {
    match n
    case Inspect(_) =>
      (match a.inspect
       case ConnErr(code, syscall) => Fail(Connectivity(code, syscall))
       case Found => CallEnsure
       case NotFound =>
         if ImageOf(config).None? then Fail(Validation(MissingImageMessage))
         else Create(config.create))
    case Create(options) =>
      (match a.create
       case Created => CallEnsure
       case ImageNotFound => Pull(options["Image"])
       case Other(e) => Fail(e))
    case Pull(_) =>
      (match PullImage(a.pull)
       case None => ReApply(scope, config)
       case Some(e) => Fail(e))
  }

  /** The points a pass runs through from `n` until it ends. */
  function Path(scope: Scope, config: Config, a: Answers, n: Next): (p: seq<Next>)
    requires Ready(n)
    ensures 1 <= |p| <= Rank(n) + 1 && p[0] == n
    ensures p[|p| - 1].Terminal()
    decreases Rank(n)
  {
    if n.Terminal() then [n]
    else [n] + Path(scope, config, a, Step(scope, config, a, n))
  }

  /** One full pass of `apply(scope, config, cb)`. */
  function Pass(scope: Scope, config: Config, a: Answers): (p: seq<Next>)
    ensures 2 <= |p| <= 4 && p[0] == Inspect(StoredId(scope))
    ensures p[|p| - 1].Terminal()
  {
    Path(scope, config, a, Inspect(StoredId(scope)))
  }

  /**
   * The outcome of a pass read directly off the behaviour `apply` is
   * required to have: an independent statement of what `Pass` computes.
   */
  function Outline(scope: Scope, config: Config, a: Answers): seq<Next> {
    var inspect := Inspect(StoredId(scope));
    match a.inspect
    case ConnErr(code, syscall) => [inspect, Fail(Connectivity(code, syscall))]
    case Found => [inspect, CallEnsure]
    case NotFound =>
      if "Image" !in config.create then [inspect, Fail(Validation(MissingImageMessage))]
      else
        var create := Create(config.create);
        match a.create
        case Created => [inspect, create, CallEnsure]
        case Other(e) => [inspect, create, Fail(e)]
        case ImageNotFound =>
          var pull := Pull(config.create["Image"]);
          match PullImage(a.pull)
          case None => [inspect, create, pull, ReApply(scope, config)]
          case Some(e) => [inspect, create, pull, Fail(e)]
  }

  /** The step machine runs exactly the outline, for every answer of the runtime. */
  lemma PassIsOutline(scope: Scope, config: Config, a: Answers)
    ensures Pass(scope, config, a) == Outline(scope, config, a)
  {
    var n0 := Inspect(StoredId(scope));
    var n1 := Step(scope, config, a, n0);
    assert Pass(scope, config, a) == [n0] + Path(scope, config, a, n1);
    if n1.Terminal() {
      assert Path(scope, config, a, n1) == [n1];
    } else {
      var n2 := Step(scope, config, a, n1);
      assert Path(scope, config, a, n1) == [n1] + Path(scope, config, a, n2);
      if n2.Terminal() {
        assert Path(scope, config, a, n2) == [n2];
      } else {
        var n3 := Step(scope, config, a, n2);
        assert Path(scope, config, a, n2) == [n2] + Path(scope, config, a, n3);
        assert Path(scope, config, a, n3) == [n3];
      }
    }
  }

  function Ind(n: Next, k: Kind): nat {
    if KindOf(n) == k then 1 else 0
  }

  lemma Count2(x: Next, y: Next, k: Kind)
    ensures Count([x, y], k) == Ind(x, k) + Ind(y, k)
  {
    assert [x, y][1..] == [y];
    assert [y][1..] == [];
    assert Count([y], k) == Ind(y, k) + Count([], k);
  }

  lemma Count3(x: Next, y: Next, z: Next, k: Kind)
    ensures Count([x, y, z], k) == Ind(x, k) + Ind(y, k) + Ind(z, k)
  {
    assert [x, y, z][1..] == [y, z];
    Count2(y, z, k);
  }

  lemma Count4(w: Next, x: Next, y: Next, z: Next, k: Kind)
    ensures Count([w, x, y, z], k) == Ind(w, k) + Ind(x, k) + Ind(y, k) + Ind(z, k)
  {
    assert [w, x, y, z][1..] == [x, y, z];
    Count3(x, y, z, k);
  }

  /** With no reachable runtime, the connection error reaches the callback as it came. */
  lemma ConnectionErrorPassesThrough(scope: Scope, config: Config, a: Answers)
    requires a.inspect.ConnErr?
    ensures Pass(scope, config, a) == [Inspect(StoredId(scope)), Fail(Connectivity(a.inspect.code, a.inspect.syscall))]
  {
    PassIsOutline(scope, config, a);
  }

  /** A missing container and no configured image fail validation before any create or pull. */
  lemma MissingImageFailsBeforeCreate(scope: Scope, config: Config, a: Answers)
    requires a.inspect.NotFound? && "Image" !in config.create
    ensures Pass(scope, config, a) == [Inspect(StoredId(scope)), Fail(Validation(MissingImageMessage))]
    ensures MatchesMissingImage(Pass(scope, config, a)[1].err.message)
  {
    PassIsOutline(scope, config, a);
    MissingImageMessageMatches();
  }

  /** A missing container whose image is missing too: one pull, of `config.create.Image`. */
  lemma MissingImagePullsOnce(scope: Scope, config: Config, a: Answers)
    requires a.inspect.NotFound? && "Image" in config.create && a.create.ImageNotFound?
    ensures |Pass(scope, config, a)| == 4
    ensures Pass(scope, config, a)[..3] ==
            [Inspect(StoredId(scope)), Create(config.create), Pull(config.create["Image"])]
    ensures Count(Pass(scope, config, a), PullKind) == 1
  {
    PassIsOutline(scope, config, a);
    var p := Pass(scope, config, a);
    Count4(p[0], p[1], p[2], p[3], PullKind);
  }

  /** After a successful pull the pass re-applies once, with the same scope and config. */
  lemma PullSuccessReApplies(scope: Scope, config: Config, a: Answers)
    requires a.inspect.NotFound? && "Image" in config.create && a.create.ImageNotFound?
    requires PullImage(a.pull) == None
    ensures Pass(scope, config, a)[3] == ReApply(scope, config)
    ensures Count(Pass(scope, config, a), ReApplyKind) == 1
    ensures Count(Pass(scope, config, a), EnsureKind) == 0
  {
    PassIsOutline(scope, config, a);
    var p := Pass(scope, config, a);
    Count4(p[0], p[1], p[2], p[3], ReApplyKind);
    Count4(p[0], p[1], p[2], p[3], EnsureKind);
  }

  /** A failed pull reaches the caller unchanged and nothing is re-applied. */
  lemma PullFailureFails(scope: Scope, config: Config, a: Answers)
    requires a.inspect.NotFound? && "Image" in config.create && a.create.ImageNotFound?
    requires PullImage(a.pull).Some?
    ensures Pass(scope, config, a)[3] == Fail(PullImage(a.pull).value)
    ensures Count(Pass(scope, config, a), ReApplyKind) == 0
  {
    PassIsOutline(scope, config, a);
    var p := Pass(scope, config, a);
    Count4(p[0], p[1], p[2], p[3], ReApplyKind);
  }

  /** A container that exists goes straight to `ensure`, once, with no create and no pull. */
  lemma FoundCallsEnsureOnce(scope: Scope, config: Config, a: Answers)
    requires a.inspect.Found?
    ensures Pass(scope, config, a) == [Inspect(StoredId(scope)), CallEnsure]
    ensures Count(Pass(scope, config, a), EnsureKind) == 1
  {
    PassIsOutline(scope, config, a);
    Count2(Inspect(StoredId(scope)), CallEnsure, EnsureKind);
  }

  /** A container created now also goes to `ensure`, and no image is pulled. */
  lemma CreatedCallsEnsure(scope: Scope, config: Config, a: Answers)
    requires a.inspect.NotFound? && "Image" in config.create && a.create.Created?
    ensures Pass(scope, config, a) == [Inspect(StoredId(scope)), Create(config.create), CallEnsure]
  {
    PassIsOutline(scope, config, a);
  }

  /** Any other create failure reaches the caller unchanged. */
  lemma CreateFailureFails(scope: Scope, config: Config, a: Answers)
    requires a.inspect.NotFound? && "Image" in config.create && a.create.Other?
    ensures Pass(scope, config, a) == [Inspect(StoredId(scope)), Create(config.create), Fail(a.create.err)]
  {
    PassIsOutline(scope, config, a);
  }

  /** A point of a pass that names the pass's own arguments. */
  predicate FaithfulPoint(scope: Scope, config: Config, n: Next) {
    && (n.Inspect? ==> n.id == StoredId(scope))
    && (n.Create? ==> n.options == config.create)
    && (n.Pull? ==> ImageOf(config) == Some(n.image))
    && (n.ReApply? ==> n.scope == scope && n.config == config)
  }

  /** The counts of one pass, whatever the runtime answers. */
  lemma PassCounts(scope: Scope, config: Config, a: Answers)
    ensures var p := Pass(scope, config, a); var last := p[|p| - 1];
      && Count(p, InspectKind) == 1
      && Count(p, ReApplyKind) == (if last.ReApply? then 1 else 0)
      && Count(p, EnsureKind) == (if last.CallEnsure? then 1 else 0)
      && Count(p, ReApplyKind) <= Count(p, PullKind) <= 1
  {
    PassIsOutline(scope, config, a);
    var p := Pass(scope, config, a);
    forall k: Kind
      ensures Count(p, k) == (if |p| == 2 then Ind(p[0], k) + Ind(p[1], k)
                              else if |p| == 3 then Ind(p[0], k) + Ind(p[1], k) + Ind(p[2], k)
                              else Ind(p[0], k) + Ind(p[1], k) + Ind(p[2], k) + Ind(p[3], k))
    {
      if |p| == 2 {
        assert p == [p[0], p[1]];
        Count2(p[0], p[1], k);
      } else if |p| == 3 {
        assert p == [p[0], p[1], p[2]];
        Count3(p[0], p[1], p[2], k);
      } else {
        assert p == [p[0], p[1], p[2], p[3]];
        Count4(p[0], p[1], p[2], p[3], k);
      }
    }
  }

  /** Every point of a pass names the pass's own scope, config and image. */
  lemma PassFaithful(scope: Scope, config: Config, a: Answers)
    ensures forall k :: 0 <= k < |Pass(scope, config, a)| ==> FaithfulPoint(scope, config, Pass(scope, config, a)[k])
  {
    PassIsOutline(scope, config, a);
  }

  /** What every pass guarantees, whatever the runtime answers; all the multi-pass proofs need of a pass. */
  ghost predicate WellFormedPass(scope: Scope, config: Config, p: seq<Next>) {
    && |p| >= 2
    && p[|p| - 1].Terminal()
    && Count(p, InspectKind) == 1
    && Count(p, ReApplyKind) == (if p[|p| - 1].ReApply? then 1 else 0)
    && Count(p, EnsureKind) == (if p[|p| - 1].CallEnsure? then 1 else 0)
    && Count(p, ReApplyKind) <= Count(p, PullKind) <= 1
    && (forall k :: 0 <= k < |p| ==> FaithfulPoint(scope, config, p[k]))
  }

  lemma PassWellFormed(scope: Scope, config: Config, a: Answers)
    ensures WellFormedPass(scope, config, Pass(scope, config, a))
  {
    PassCounts(scope, config, a);
    PassFaithful(scope, config, a);
  }

  /** The passes of a reconciliation: round `i` is answered during pass `i`. */
  function Passes(scope: Scope, config: Config, rounds: seq<Answers>): (ps: seq<seq<Next>>)
    ensures |ps| == |rounds|
    decreases |rounds|
  {
    if rounds == [] then [] else [Pass(scope, config, rounds[0])] + Passes(scope, config, rounds[1..])
  }

  /** Pass `i` of the list is the pass over round `i`. */
  lemma {:induction false} PassesAt(scope: Scope, config: Config, rounds: seq<Answers>, i: nat)
    requires i < |rounds|
    ensures Passes(scope, config, rounds)[i] == Pass(scope, config, rounds[i])
    decreases i
  {
    if i > 0 {
      PassesAt(scope, config, rounds[1..], i - 1);
    }
  }

  ghost predicate AllWellFormed(scope: Scope, config: Config, ps: seq<seq<Next>>) {
    forall i :: 0 <= i < |ps| ==> WellFormedPass(scope, config, ps[i])
  }

  lemma PassesWellFormed(scope: Scope, config: Config, rounds: seq<Answers>)
    ensures AllWellFormed(scope, config, Passes(scope, config, rounds))
  {
    var ps := Passes(scope, config, rounds);
    forall i | 0 <= i < |ps|
      ensures WellFormedPass(scope, config, ps[i])
    {
      PassesAt(scope, config, rounds, i);
      PassWellFormed(scope, config, rounds[i]);
    }
  }

  /**
   * The re-entrant `apply`: run pass `from`, and while a pass ends in
   * `ReApply` go on with the next; when the passes run out the pending
   * `ReApply` is where the trace stops.
   */
  function Chain(ps: seq<seq<Next>>, from: nat): seq<Next>
    requires from <= |ps|
    decreases |ps| - from
  {
    if from == |ps| then []
    else
      var p := ps[from];
      if p != [] && p[|p| - 1].ReApply? then p + Chain(ps, from + 1) else p
  }

  /**
   * `apply(scope, config, cb)` with its retries, over one round of runtime
   * answers per pass. Chaining the passes with the original arguments is
   * what the re-entrant call does, because every `ReApply` carries exactly
   * them (`PassFaithful`).
   */
  function Reconciliation(scope: Scope, config: Config, rounds: seq<Answers>): seq<Next> {
    Chain(Passes(scope, config, rounds), 0)
  }

  /** A chain is empty exactly when no pass is left. */
  lemma ChainEmpty(scope: Scope, config: Config, ps: seq<seq<Next>>, from: nat)
    requires AllWellFormed(scope, config, ps) && from <= |ps|
    ensures from == |ps| <==> Chain(ps, from) == []
  {
    if from < |ps| {
      assert WellFormedPass(scope, config, ps[from]);
    }
  }

  /** A chain ends where its last pass ends: at `ensure`, at a failure, or at a pending re-apply. */
  lemma {:induction false} ChainEndsTerminal(scope: Scope, config: Config, ps: seq<seq<Next>>, from: nat)
    requires AllWellFormed(scope, config, ps) && from < |ps|
    ensures var t := Chain(ps, from); t != [] && t[|t| - 1].Terminal()
    decreases |ps| - from
  {
    var p := ps[from];
    assert WellFormedPass(scope, config, p);
    if p[|p| - 1].ReApply? && from + 1 < |ps| {
      var rest := Chain(ps, from + 1);
      ChainEndsTerminal(scope, config, ps, from + 1);
      var t := p + rest;
      assert t[|t| - 1] == rest[|rest| - 1];
    }
  }

  /** Every point of a chain names the original scope, config and image: retries change neither. */
  lemma {:induction false} ChainFaithfulAt(scope: Scope, config: Config, ps: seq<seq<Next>>, from: nat, k: nat)
    requires AllWellFormed(scope, config, ps) && from <= |ps| && k < |Chain(ps, from)|
    ensures FaithfulPoint(scope, config, Chain(ps, from)[k])
    decreases |ps| - from
  {
    var p := ps[from];
    assert WellFormedPass(scope, config, p);
    if k >= |p| {
      ChainFaithfulAt(scope, config, ps, from + 1, k - |p|);
    }
  }

  /** `ensure` is called at most once in a chain, and exactly when the chain ends with it. */
  lemma {:induction false} ChainEnsureCount(scope: Scope, config: Config, ps: seq<seq<Next>>, from: nat)
    requires AllWellFormed(scope, config, ps) && from <= |ps|
    ensures var t := Chain(ps, from);
      Count(t, EnsureKind) == (if t != [] && t[|t| - 1].CallEnsure? then 1 else 0)
    decreases |ps| - from
  {
    if from < |ps| {
      var p := ps[from];
      assert WellFormedPass(scope, config, p);
      if p[|p| - 1].ReApply? {
        var rest := Chain(ps, from + 1);
        ChainEnsureCount(scope, config, ps, from + 1);
        CountAppend(p, rest, EnsureKind);
        if rest != [] {
          var t := p + rest;
          assert t[|t| - 1] == rest[|rest| - 1];
        }
      }
    }
  }

  /**
   * Every pass but the first follows a re-apply, passes never outnumber the
   * rounds (all of them run when the chain stops on a pending re-apply), and
   * each re-apply follows one pull.
   */
  lemma {:induction false} ChainPassCounts(scope: Scope, config: Config, ps: seq<seq<Next>>, from: nat)
    requires AllWellFormed(scope, config, ps) && from <= |ps|
    ensures var t := Chain(ps, from);
      var ended := t != [] && !t[|t| - 1].ReApply?;
      && Count(t, InspectKind) == Count(t, ReApplyKind) + (if ended then 1 else 0)
      && Count(t, InspectKind) <= |ps| - from
      && (t != [] && !ended ==> Count(t, InspectKind) == |ps| - from)
      && Count(t, ReApplyKind) <= Count(t, PullKind) <= Count(t, ReApplyKind) + 1
    decreases |ps| - from
  {
    if from < |ps| {
      var p := ps[from];
      assert WellFormedPass(scope, config, p);
      if p[|p| - 1].ReApply? {
        var rest := Chain(ps, from + 1);
        ChainPassCounts(scope, config, ps, from + 1);
        ChainEmpty(scope, config, ps, from + 1);
        CountAppend(p, rest, InspectKind);
        CountAppend(p, rest, ReApplyKind);
        CountAppend(p, rest, PullKind);
        if rest != [] {
          ChainEndsTerminal(scope, config, ps, from + 1);
          var t := p + rest;
          assert t[|t| - 1] == rest[|rest| - 1];
        }
      }
    }
  }

  /** `ensure` runs at most once in a whole reconciliation, and only as its last step. */
  lemma EnsureAtMostOnce(scope: Scope, config: Config, rounds: seq<Answers>)
    ensures var t := Reconciliation(scope, config, rounds);
      Count(t, EnsureKind) == (if t != [] && t[|t| - 1].CallEnsure? then 1 else 0)
  {
    PassesWellFormed(scope, config, rounds);
    ChainEnsureCount(scope, config, Passes(scope, config, rounds), 0);
  }

  /** Passes, re-applies and pulls of a whole reconciliation, over any answers of the runtime. */
  lemma ReconciliationCounts(scope: Scope, config: Config, rounds: seq<Answers>)
    ensures var t := Reconciliation(scope, config, rounds);
      var ended := t != [] && !t[|t| - 1].ReApply?;
      && (rounds == [] <==> t == [])
      && (t != [] ==> t[|t| - 1].Terminal())
      && Count(t, InspectKind) == Count(t, ReApplyKind) + (if ended then 1 else 0)
      && Count(t, InspectKind) <= |rounds|
      && (t != [] && !ended ==> Count(t, InspectKind) == |rounds|)
      && Count(t, ReApplyKind) <= Count(t, PullKind) <= Count(t, ReApplyKind) + 1
  {
    var ps := Passes(scope, config, rounds);
    PassesWellFormed(scope, config, rounds);
    ChainEmpty(scope, config, ps, 0);
    if rounds != [] {
      ChainEndsTerminal(scope, config, ps, 0);
    }
    ChainPassCounts(scope, config, ps, 0);
  }

  /** Every call and re-apply of a whole reconciliation uses the original scope, config and image. */
  lemma ReconciliationFaithful(scope: Scope, config: Config, rounds: seq<Answers>, k: nat)
    requires k < |Reconciliation(scope, config, rounds)|
    ensures FaithfulPoint(scope, config, Reconciliation(scope, config, rounds)[k])
  {
    PassesWellFormed(scope, config, rounds);
    ChainFaithfulAt(scope, config, Passes(scope, config, rounds), 0, k);
  }

  /** Taking one step moves point `n` from the path still to run onto the path run so far. */
  lemma StepAlong(scope: Scope, config: Config, a: Answers, path: seq<Next>, n: Next)
    requires Ready(n) && !n.Terminal()
    ensures (path + [n]) + Path(scope, config, a, Step(scope, config, a, n)) == path + Path(scope, config, a, n)
    ensures Count(path + [n], PullKind) == Count(path, PullKind) + (if n.Pull? then 1 else 0)
    ensures Count(path + [n], EnsureKind) == Count(path, EnsureKind)
  {
    CountAppend(path, [n], PullKind);
    CountAppend(path, [n], EnsureKind);
  }

  /** The end of the pass is the last point of the path. */
  lemma EndOfPass(scope: Scope, config: Config, a: Answers, path: seq<Next>, n: Next)
    requires Ready(n) && n.Terminal()
    requires path + Path(scope, config, a, n) == Pass(scope, config, a)
    ensures path + [n] == Pass(scope, config, a)
    ensures Count(path + [n], PullKind) == Count(path, PullKind)
    ensures Count(path + [n], EnsureKind) == Count(path, EnsureKind) + (if n.CallEnsure? then 1 else 0)
  {
    CountAppend(path, [n], PullKind);
    CountAppend(path, [n], EnsureKind);
  }

  /**
   * One pass of `apply(scope, config, cb)`: the step machine run as a loop
   * from the inspect call to the end of the pass, counting pulls and
   * `ensure` calls.
   */
  method RunPass(scope: Scope, config: Config, a: Answers)
    returns (path: seq<Next>, pulls: nat, ensureCalls: nat)
    ensures path == Pass(scope, config, a)
    ensures pulls == Count(path, PullKind)
    ensures ensureCalls == Count(path, EnsureKind)
  {
    var n := Inspect(StoredId(scope));
    path, pulls, ensureCalls := [], 0, 0;
    while !n.Terminal()
      invariant Ready(n)
      invariant path + Path(scope, config, a, n) == Pass(scope, config, a)
      invariant pulls == Count(path, PullKind)
      invariant ensureCalls == Count(path, EnsureKind)
      decreases Rank(n)
    {
      StepAlong(scope, config, a, path, n);
      pulls := pulls + (if n.Pull? then 1 else 0);
      path, n := path + [n], Step(scope, config, a, n);
    }
    EndOfPass(scope, config, a, path, n);
    if n.CallEnsure? {
      ensureCalls := ensureCalls + 1;
    }
    path := path + [n];
  }

  /** Pass `i` of a reconciliation, run by `RunPass`, with what every pass guarantees. */
  method RunRound(scope: Scope, config: Config, rounds: seq<Answers>, i: nat)
    returns (path: seq<Next>, pulls: nat, ensureCalls: nat)
    requires i < |rounds|
    ensures path == Passes(scope, config, rounds)[i]
    ensures WellFormedPass(scope, config, path)
    ensures pulls == Count(path, PullKind) && ensureCalls == Count(path, EnsureKind)
  {
    path, pulls, ensureCalls := RunPass(scope, config, rounds[i]);
    PassesAt(scope, config, rounds, i);
    PassWellFormed(scope, config, rounds[i]);
  }

  /** One step of a chain: pass `from`, followed by the rest only after a re-apply. */
  lemma ChainStep(ps: seq<seq<Next>>, from: nat)
    requires from < |ps| && ps[from] != []
    ensures ps[from][|ps[from]| - 1].ReApply? ==> Chain(ps, from) == ps[from] + Chain(ps, from + 1)
    ensures !ps[from][|ps[from]| - 1].ReApply? ==> Chain(ps, from) == ps[from]
  {
  }

  /** The three counts `Apply` keeps, over two pieces of trace. */
  lemma CountsAppend(path: seq<Next>, rest: seq<Next>)
    ensures Count(path + rest, InspectKind) == Count(path, InspectKind) + Count(rest, InspectKind)
    ensures Count(path + rest, PullKind) == Count(path, PullKind) + Count(rest, PullKind)
    ensures Count(path + rest, EnsureKind) == Count(path, EnsureKind) + Count(rest, EnsureKind)
  {
    CountAppend(path, rest, InspectKind);
    CountAppend(path, rest, PullKind);
    CountAppend(path, rest, EnsureKind);
  }

  /** The facts about a whole reconciliation that a caller of `Apply` relies on. */
  lemma ReconciliationSummary(scope: Scope, config: Config, rounds: seq<Answers>)
    ensures var t := Reconciliation(scope, config, rounds);
      && Count(t, InspectKind) <= |rounds|
      && Count(t, EnsureKind) <= 1
      && forall k :: 0 <= k < |t| ==> FaithfulPoint(scope, config, t[k])
  {
    ReconciliationCounts(scope, config, rounds);
    EnsureAtMostOnce(scope, config, rounds);
    var t := Reconciliation(scope, config, rounds);
    forall k | 0 <= k < |t|
      ensures FaithfulPoint(scope, config, t[k])
    {
      ReconciliationFaithful(scope, config, rounds, k);
    }
  }

  /**
   * `apply(scope, config, cb)` from pass `from` on: run one pass and, when it
   * ends in a re-apply, call itself again with the scope and config that
   * re-apply carries, one round of answers later; count the passes, pulls
   * and `ensure` calls of everything that ran. `Apply(scope, config, rounds, 0)`
   * is a whole reconciliation.
   */
  method Apply(scope: Scope, config: Config, rounds: seq<Answers>, from: nat)
    returns (trace: seq<Next>, passes: nat, pulls: nat, ensureCalls: nat)
    requires from <= |rounds|
    ensures trace == Chain(Passes(scope, config, rounds), from)
    ensures from == 0 ==> trace == Reconciliation(scope, config, rounds)
    ensures passes == Count(trace, InspectKind)
    ensures pulls == Count(trace, PullKind)
    ensures ensureCalls == Count(trace, EnsureKind)
    decreases |rounds| - from
  {
    if from == |rounds| {
      return [], 0, 0, 0;
    }
    ghost var ps := Passes(scope, config, rounds);
    var path, passPulls, passEnsures := RunRound(scope, config, rounds, from);
    ChainStep(ps, from);
    var last := path[|path| - 1];
    if last.ReApply? {
      assert FaithfulPoint(scope, config, path[|path| - 1]);
      var rest, restPasses, restPulls, restEnsures := Apply(last.scope, last.config, rounds, from + 1);
      CountsAppend(path, rest);
      trace := path + rest;
      passes, pulls, ensureCalls := 1 + restPasses, passPulls + restPulls, passEnsures + restEnsures;
    } else {
      trace, passes, pulls, ensureCalls := path, 1, passPulls, passEnsures;
    }
  }
}
