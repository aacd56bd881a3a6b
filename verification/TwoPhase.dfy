/**
 The destructive tools' two-phase protocol (backend/internal/mcp/server.go): a call without
 a token previews and issues one; the same call with the token executes.  Concurrent calls
 are in flight at once: the tool's policy gate, the token store's lock region and the
 service's own gate are separate steps.
 */
module TwoPhase {
  import opened Basics
  import opened ConfirmStore

  // --- Requests and what is hashed ---------------------------------------------------------------

  datatype Request =
    | TopicsDelete(conn: string, topics: seq<string>)
    | OffsetsReset(conn: string, group: string, topics: seq<string>, resetTo: string, timestampMs: int,
                   partitionOffsets: map<string, map<int, int>>)
    | RecordsClear(conn: string, topic: string)

  datatype Json =
    | Text(text: string)
    | Texts(texts: seq<string>)
    | Number(number: int)
    | Offsets(offsets: map<string, map<int, int>>)

  // The JSON member names: connectionId, topics, topic, confirmTopic and so on.
  datatype Name =
    | ConnectionId | TopicList | TopicName | ConfirmTopic | ConfirmTopics
    | Group | ResetTo | TimestampMs | PartitionOffsets

  datatype Field = Field(name: Name, value: Json)

  // The fields of the JSON object that is hashed, in order; empty optional fields are omitted.
  function Canonical(req: Request): seq<Field> {
    match req
    case TopicsDelete(c, ts) =>
      [Field(ConnectionId, Text(c)), Field(TopicList, Texts(ts))]
      + (if |ts| == 1 then Optional(ConfirmTopic, Text(ts[0]), ts[0] != "")
         else Optional(ConfirmTopics, Texts(ts), ts != []))
    case OffsetsReset(c, g, ts, to, ms, po) =>
      [Field(ConnectionId, Text(c)), Field(Group, Text(g))] + ResetTail(req)
    case RecordsClear(c, t) => [Field(ConnectionId, Text(c)), Field(TopicName, Text(t))]
  }

  function Optional(name: Name, value: Json, present: bool): seq<Field> {
    if present then [Field(name, value)] else []
  }

  // The value of a field, if the object has it.
  function Lookup(fs: seq<Field>, name: Name): seq<Json> {
    if fs == [] then [] else (if fs[0].name == name then [fs[0].value] else []) + Lookup(fs[1..], name)
  }

  lemma {:induction false} LookupCat(a: seq<Field>, b: seq<Field>, name: Name)
    ensures Lookup(a + b, name) == Lookup(a, name) + Lookup(b, name)
  {
    if a == [] {
      assert a + b == b;
    } else {
      assert (a + b)[1..] == a[1..] + b;
      LookupCat(a[1..], b, name);
    }
  }

  lemma LookupOptional(name: Name, value: Json, present: bool, wanted: Name)
    ensures Lookup(Optional(name, value, present), wanted) == if present && name == wanted then [value] else []
  {
  }

  // The optional part of a reset's object.
  function ResetTail(req: Request): seq<Field>
    requires req.OffsetsReset?
  {
    Optional(TopicList, Texts(req.topics), req.topics != [])
    + (Optional(ResetTo, Text(req.resetTo), true)
    + (Optional(TimestampMs, Number(req.timestampMs), req.timestampMs != 0)
    + Optional(PartitionOffsets, Offsets(req.partitionOffsets), |req.partitionOffsets| != 0)))
  }

  lemma ResetFields(req: Request, name: Name)
    requires req.OffsetsReset? && (name.TopicList? || name.ResetTo? || name.TimestampMs? || name.PartitionOffsets?)
    ensures Lookup(ResetTail(req), name) ==
              if name.TopicList? then (if req.topics != [] then [Texts(req.topics)] else [])
              else if name.ResetTo? then [Text(req.resetTo)]
              else if name.TimestampMs? then (if req.timestampMs != 0 then [Number(req.timestampMs)] else [])
              else if |req.partitionOffsets| != 0 then [Offsets(req.partitionOffsets)] else []
  {
    hide Lookup, Optional;
    var ts := Optional(TopicList, Texts(req.topics), req.topics != []);
    var to := Optional(ResetTo, Text(req.resetTo), true);
    var ms := Optional(TimestampMs, Number(req.timestampMs), req.timestampMs != 0);
    var po := Optional(PartitionOffsets, Offsets(req.partitionOffsets), |req.partitionOffsets| != 0);
    LookupCat(ts, to + (ms + po), name);
    LookupCat(to, ms + po, name);
    LookupCat(ms, po, name);
    LookupOptional(TopicList, Texts(req.topics), req.topics != [], name);
    LookupOptional(ResetTo, Text(req.resetTo), true, name);
    LookupOptional(TimestampMs, Number(req.timestampMs), req.timestampMs != 0, name);
    LookupOptional(PartitionOffsets, Offsets(req.partitionOffsets), |req.partitionOffsets| != 0, name);
    var l := Lookup(ResetTail(req), name);
    assert l == Lookup(ts, name) + (Lookup(to, name) + (Lookup(ms, name) + Lookup(po, name)));
  }

  /** What is hashed tells requests apart, also across the three tools. */
  lemma CanonicalInjective(a: Request, b: Request)
    requires Canonical(a) == Canonical(b)
    ensures a == b
  {
    assert Canonical(a)[0] == Canonical(b)[0] && Canonical(a)[1] == Canonical(b)[1];
    if a.OffsetsReset? && b.OffsetsReset? {
      assert a.conn == b.conn && a.group == b.group;
      assert ResetTail(a) == Canonical(a)[2..] && ResetTail(b) == Canonical(b)[2..];
      hide Canonical, ResetTail;
      ResetFields(a, TopicList);
      ResetFields(b, TopicList);
      ResetFields(a, ResetTo);
      ResetFields(b, ResetTo);
      ResetFields(a, TimestampMs);
      ResetFields(b, TimestampMs);
      ResetFields(a, PartitionOffsets);
      ResetFields(b, PartitionOffsets);
      assert a.topics == b.topics && a.resetTo == b.resetTo && a.timestampMs == b.timestampMs;
      assert a.partitionOffsets == b.partitionOffsets;
    }
  }

  // --- Policies and the confirm guard --------------------------------------------------------------

  datatype Policy = Policy(readOnly: bool, allowDelete: bool)

  // A connection the service does not know is read-only.
  function PolicyOf(policies: map<string, Policy>, conn: string): Policy {
    if conn in policies then policies[conn] else Policy(true, false)
  }

  // ensureWritable for the offset reset, ensureDeleteAllowed for the other two.
  predicate Allows(p: Policy, req: Request) { !p.readOnly && (req.OffsetsReset? || p.allowDelete) }

  function Dedupe(names: seq<string>): seq<string> {
    if names == [] then []
    else
      var init, last := Dedupe(names[..|names| - 1]), names[|names| - 1];
      if last in init then init else init + [last]
  }

  // ensureTopicDeleteConfirm with the confirmation fields the tool fills in from the topics.
  predicate GuardPasses(topics: seq<string>) {
    var names := Dedupe(topics);
    if names == [] then false
    else if |names| > 1 then
      // confirmTopics lists the topics as given, unless there is only one of them.
      var confirms := if |topics| == 1 then [] else topics;
      |confirms| == |names| && forall n :: n in names ==> n in confirms
    else
      var confirm := if |topics| == 1 then topics[0] else "";
      confirm != "" && confirm == names[0]
  }

  lemma {:induction false} DedupeFacts(names: seq<string>)
    ensures |Dedupe(names)| <= |names|
    ensures forall n :: n in Dedupe(names) <==> n in names
    ensures |Dedupe(names)| == |names| <==> Distinct(names)
    ensures Distinct(names) ==> Dedupe(names) == names
  {
    if names != [] {
      var init, last := names[..|names| - 1], names[|names| - 1];
      assert names == init + [last];
      DedupeFacts(init);
      assert Distinct(names) <==> Distinct(init) && last !in init by {
        assert forall i :: 0 <= i < |init| ==> names[i] == init[i];
      }
    }
  }

  /** A confirmed deletion gets past the guard exactly when no topic is named twice. */
  lemma GuardPassesIff(topics: seq<string>)
    requires topics != [] && "" !in topics
    ensures GuardPasses(topics) <==> Distinct(topics)
  {
    DedupeFacts(topics);
    assert topics[0] in Dedupe(topics);
    if |topics| > 1 && |Dedupe(topics)| == |topics| {
      assert Dedupe(topics) == topics;
    }
  }

  // A topic named twice spends its token and is refused.
  lemma RepeatedTopicIsRefused()
    ensures !GuardPasses(["a", "a"])
  {
    var topics := ["a", "a"];
    assert topics[0] == topics[1] && "" !in topics;
    GuardPassesIff(topics);
  }

  // What the argument checks of the tools leave: topics are named, and no name is empty.
  predicate Validated(req: Request) { req.TopicsDelete? ==> req.topics != [] && "" !in req.topics }

  // What the service itself checks before it writes.
  predicate Executes(p: Policy, req: Request) { Allows(p, req) && (req.TopicsDelete? ==> GuardPasses(req.topics)) }

  // --- Calls in flight -----------------------------------------------------------------------------

  type CallId = nat

  datatype Stage = Gated | Confirmed(at: Time) | Finished

  datatype Call = Call(req: Request, token: Token, stage: Stage)

  datatype Event =
    | Previewed(req: Request, token: Token, at: Time, ttl: int)
    | Wrote(call: CallId, req: Request, token: Token, confirmedAt: Time, policy: Policy)

  // origin and source are history: the preview that issued a live token, and the preview a
  // confirmed call relied on.
  datatype System = System(store: Store<seq<Field>>, policies: map<string, Policy>, calls: map<CallId, Call>,
                           trace: seq<Event>, origin: map<Token, nat>, source: map<CallId, nat>)

  datatype Step =
    | Enter(c: CallId, req: Request, token: Token)
    | UseStore(c: CallId, now: Time, drawn: Token)
    | Execute(c: CallId)
    | SetPolicy(conn: string, policy: Policy)
    | SetTtl(ttl: int)

  const START := System(Empty(), map[], map[], [], map[], map[])

  predicate Enabled(s: System, a: Step) {
    match a
    case Enter(c, req, _) => c !in s.calls && Validated(req)
    case UseStore(c, _, drawn) => c in s.calls && s.calls[c].stage.Gated? && drawn != ""
    case Execute(c) => c in s.calls && s.calls[c].stage.Confirmed?
    case _ => true
  }

  function Next(s: System, a: Step): System
    requires Enabled(s, a)
  {
    match a
    case Enter(c, req, token) =>
      var stage := if Allows(PolicyOf(s.policies, req.conn), req) then Gated else Finished;
      s.(calls := s.calls[c := Call(req, token, stage)])
    case UseStore(c, now, drawn) =>
      var call := s.calls[c];
      var hash := Canonical(call.req);
      if call.token == "" then
        s.(store := Issued(s.store, drawn, hash, now),
           calls := s.calls[c := call.(stage := Finished)],
           trace := s.trace + [Previewed(call.req, drawn, now, s.store.ttl)],
           origin := s.origin[drawn := |s.trace|])
      else
        var ok := Outcome(s.store, call.token, hash, now).Ok?;
        s.(store := Consumed(s.store, call.token),
           calls := s.calls[c := call.(stage := if ok then Confirmed(now) else Finished)],
           source := if ok && call.token in s.origin then s.source[c := s.origin[call.token]] else s.source)
    case Execute(c) =>
      var call := s.calls[c];
      var p := PolicyOf(s.policies, call.req.conn);
      s.(calls := s.calls[c := call.(stage := Finished)],
         trace := if Executes(p, call.req)
                  then s.trace + [Wrote(c, call.req, call.token, call.stage.at, p)] else s.trace)
    case SetPolicy(conn, p) => s.(policies := s.policies[conn := p])
    case SetTtl(ttl) => s.(store := WithTtl(s.store, ttl))
  }

  ghost predicate IsRun(run: seq<Step>)
    decreases |run|, 0
  {
    run == [] || (IsRun(run[..|run| - 1]) && Enabled(After(run[..|run| - 1]), run[|run| - 1]))
  }

  ghost function After(run: seq<Step>): System
    requires IsRun(run)
    decreases |run|, 1
  {
    if run == [] then START else Next(After(run[..|run| - 1]), run[|run| - 1])
  }

  // --- Safety --------------------------------------------------------------------------------------

  // Event p previews this request, issued this token, and its deadline is after `at`.
  ghost predicate Backs(s: System, p: nat, req: Request, token: Token, at: Time) {
    && p < |s.trace| && s.trace[p].Previewed? && s.trace[p].req == req && s.trace[p].token == token
    && at < s.trace[p].at + s.trace[p].ttl
  }

  // A live token is bound to the preview that issued it, which nothing has relied on.
  ghost predicate TokenOk(s: System, t: Token) {
    t in s.store.items ==>
      && t in s.origin && s.origin[t] < |s.trace|
      && var e := s.trace[s.origin[t]];
         && e.Previewed? && e.token == t
         && s.store.items[t] == Entry(Canonical(e.req), e.at + e.ttl)
         && forall c :: c in s.source ==> s.source[c] != s.origin[t]
  }

  // A confirmed call relies on a matching preview.
  ghost predicate CallOk(s: System, c: CallId) {
    c in s.calls && s.calls[c].stage.Confirmed? ==>
      c in s.source && Backs(s, s.source[c], s.calls[c].req, s.calls[c].token, s.calls[c].stage.at)
  }

  ghost predicate WriteOk(s: System, w: nat) {
    w < |s.trace| && s.trace[w].Wrote? ==>
      var e := s.trace[w];
      && e.call in s.calls && s.calls[e.call].stage.Finished?
      && e.call in s.source && s.source[e.call] < w
      && Backs(s, s.source[e.call], e.req, e.token, e.confirmedAt)
      && Executes(e.policy, e.req)
  }

  ghost predicate OneWritePerCall(s: System) {
    forall w, w' :: 0 <= w < w' < |s.trace| && s.trace[w].Wrote? && s.trace[w'].Wrote? ==>
      s.trace[w].call != s.trace[w'].call
  }

  ghost predicate OneCallPerPreview(s: System) {
    && (forall c, c' :: c in s.source && c' in s.source && s.source[c] == s.source[c'] ==> c == c')
    && (forall c :: c in s.source ==> c in s.calls && !s.calls[c].stage.Gated? && s.source[c] < |s.trace|)
  }

  ghost predicate Inv(s: System) {
    && (forall t :: TokenOk(s, t)) && (forall c :: CallOk(s, c)) && (forall w :: WriteOk(s, w))
    && OneWritePerCall(s) && OneCallPerPreview(s)
  }

  lemma PreviewKeepsInv(s: System, a: Step)
    requires Inv(s) && Enabled(s, a) && a.UseStore? && s.calls[a.c].token == ""
    ensures Inv(Next(s, a))
  {
    hide Canonical, Executes;
    var s' := Next(s, a);
    forall t ensures TokenOk(s', t) { assert TokenOk(s, t); }
    forall c ensures CallOk(s', c) { assert CallOk(s, c); }
    forall w ensures WriteOk(s', w) { assert WriteOk(s, w); }
  }

  lemma ConfirmKeepsInv(s: System, a: Step)
    requires Inv(s) && Enabled(s, a) && a.UseStore? && s.calls[a.c].token != ""
    ensures Inv(Next(s, a))
  {
    hide Executes, Canonical;
    var call := s.calls[a.c];
    assert TokenOk(s, call.token);
    var store := Consumed(s.store, call.token);
    if Outcome(s.store, call.token, Canonical(call.req), a.now).Ok? {
      var p := s.origin[call.token];
      CanonicalInjective(s.trace[p].req, call.req);
      assert Backs(s, p, call.req, call.token, a.now);
      hide Outcome;
      ReliesKeepsInv(s, a.c, p, a.now, store);
    } else {
      hide Outcome;
      RejectKeepsInv(s, a.c, store);
    }
  }

  // The call is confirmed and relies on preview p; its token is gone.
  lemma ReliesKeepsInv(s: System, c: CallId, p: nat, now: Time, store: Store<seq<Field>>)
    requires Inv(s) && c in s.calls && s.calls[c].stage.Gated? && s.calls[c].token in s.store.items
    requires s.calls[c].token in s.origin && p == s.origin[s.calls[c].token]
    requires store == Consumed(s.store, s.calls[c].token)
    requires Backs(s, p, s.calls[c].req, s.calls[c].token, now)
    ensures Inv(s.(store := store, calls := s.calls[c := s.calls[c].(stage := Confirmed(now))],
                   source := s.source[c := p]))
  {
    hide Executes, Canonical;
    assert TokenOk(s, s.calls[c].token);
    var s' := s.(store := store, calls := s.calls[c := s.calls[c].(stage := Confirmed(now))],
                 source := s.source[c := p]);
    forall t ensures TokenOk(s', t) { assert TokenOk(s, t); }
    forall k ensures CallOk(s', k) { assert CallOk(s, k); }
    forall w ensures WriteOk(s', w) { assert WriteOk(s, w); }
    hide TokenOk, CallOk, WriteOk, Backs;
  }

  // The call is over; its token is gone.
  lemma RejectKeepsInv(s: System, c: CallId, store: Store<seq<Field>>)
    requires Inv(s) && c in s.calls && s.calls[c].stage.Gated? && store == Consumed(s.store, s.calls[c].token)
    ensures Inv(s.(store := store, calls := s.calls[c := s.calls[c].(stage := Finished)]))
  {
    hide Executes, Canonical;
    var s' := s.(store := store, calls := s.calls[c := s.calls[c].(stage := Finished)]);
    forall t ensures TokenOk(s', t) { assert TokenOk(s, t); }
    forall k ensures CallOk(s', k) { assert CallOk(s, k); }
    forall w ensures WriteOk(s', w) { assert WriteOk(s, w); }
    hide TokenOk, CallOk, WriteOk, Backs;
  }

  lemma ExecuteKeepsInv(s: System, a: Step)
    requires Inv(s) && Enabled(s, a) && a.Execute?
    ensures Inv(Next(s, a))
  {
    hide Canonical, Executes;
    var s' := Next(s, a);
    assert CallOk(s, a.c);
    forall t ensures TokenOk(s', t) { assert TokenOk(s, t); }
    forall c ensures CallOk(s', c) { assert CallOk(s, c); }
    forall w ensures WriteOk(s', w) { assert WriteOk(s, w); }
    forall w | 0 <= w < |s.trace| && s.trace[w].Wrote?
      ensures s.trace[w].call != a.c
    {
      assert WriteOk(s, w);
    }
  }

  lemma OtherKeepsInv(s: System, a: Step)
    requires Inv(s) && Enabled(s, a) && (a.Enter? || a.SetPolicy? || a.SetTtl?)
    ensures Inv(Next(s, a))
  {
    hide Canonical, Executes;
    var s' := Next(s, a);
    forall t ensures TokenOk(s', t) { assert TokenOk(s, t); }
    forall c ensures CallOk(s', c) { assert CallOk(s, c); }
    forall w ensures WriteOk(s', w) { assert WriteOk(s, w); }
  }

  lemma {:induction false} RunKeepsInv(run: seq<Step>)
    requires IsRun(run)
    ensures Inv(After(run))
  {
    if run != [] {
      var s, a := After(run[..|run| - 1]), run[|run| - 1];
      RunKeepsInv(run[..|run| - 1]);
      if a.UseStore? {
        if s.calls[a.c].token == "" { PreviewKeepsInv(s, a); } else { ConfirmKeepsInv(s, a); }
      } else if a.Execute? {
        ExecuteKeepsInv(s, a);
      } else {
        OtherKeepsInv(s, a);
      }
    }
  }

  // The preview a write relied on.
  ghost function PreviewOf(s: System, w: nat): nat
    requires w < |s.trace| && s.trace[w].Wrote? && s.trace[w].call in s.source
  {
    s.source[s.trace[w].call]
  }

  /**
   In every run, each executed write has a preview of its own: earlier, of the identical
   request, whose token it presented before the deadline set by the TTL in force at the
   preview; and the policy at execution allowed the write.
   */
  lemma EveryWriteHasItsOwnPreview(run: seq<Step>)
    requires IsRun(run)
    ensures var s := After(run);
            && (forall w: nat :: w < |s.trace| && s.trace[w].Wrote? ==>
                  && s.trace[w].call in s.source && PreviewOf(s, w) < w
                  && Backs(s, PreviewOf(s, w), s.trace[w].req, s.trace[w].token, s.trace[w].confirmedAt)
                  && Executes(s.trace[w].policy, s.trace[w].req))
            && (forall w: nat, w': nat :: w < w' < |s.trace| && s.trace[w].Wrote? && s.trace[w'].Wrote? ==>
                  PreviewOf(s, w) != PreviewOf(s, w'))
  {
    RunKeepsInv(run);
    hide Canonical, Executes;
    var s := After(run);
    forall w: nat | w < |s.trace| && s.trace[w].Wrote?
      ensures WriteOk(s, w)
    {
    }
  }

  // --- The policy in force -------------------------------------------------------------------------

  // Step j set the connection's policy to p, and none of the steps up to k set it again.
  ghost predicate LastSet(run: seq<Step>, k: nat, conn: string, j: nat, p: Policy) {
    && j < k <= |run| && run[j] == SetPolicy(conn, p)
    && forall i :: j < i < k && run[i].SetPolicy? ==> run[i].conn != conn
  }

  ghost predicate NeverSet(run: seq<Step>, conn: string) {
    forall i :: 0 <= i < |run| && run[i].SetPolicy? ==> run[i].conn != conn
  }

  // What the policies of the connections let pass.
  ghost predicate Permits(policies: map<string, Policy>, req: Request) {
    && req.conn in policies && !policies[req.conn].readOnly
    && (!req.OffsetsReset? ==> policies[req.conn].allowDelete)
    && (req.TopicsDelete? ==> Distinct(req.topics))
  }

  /** A request passes the service's gate exactly when its own connection's policy permits it. */
  lemma ExecutesIff(policies: map<string, Policy>, req: Request)
    requires Validated(req)
    ensures Executes(PolicyOf(policies, req.conn), req) <==> Permits(policies, req)
    ensures req.conn in policies ==> PolicyOf(policies, req.conn) == policies[req.conn]
  {
    if req.TopicsDelete? {
      GuardPassesIff(req.topics);
    }
  }

  lemma {:induction false} PoliciesAreSet(run: seq<Step>, conn: string) returns (j: nat)
    requires IsRun(run)
    ensures conn in After(run).policies ==> LastSet(run, |run|, conn, j, After(run).policies[conn])
    ensures conn !in After(run).policies ==> NeverSet(run, conn)
  {
    j := 0;
    if run != [] {
      var init, last := run[..|run| - 1], run[|run| - 1];
      j := PoliciesAreSet(init, conn);
      StepPolicies(After(init), last);
      hide Enabled, Next;
      if last.SetPolicy? && last.conn == conn {
        j := |run| - 1;
      }
    }
  }

  lemma StepPolicies(s: System, a: Step)
    requires Enabled(s, a)
    ensures Next(s, a).policies == if a.SetPolicy? then s.policies[a.conn := a.policy] else s.policies
  {
    hide Canonical, Executes;
  }

  // A step adds at most one write: that of the call it executes.
  lemma StepTrace(s: System, a: Step)
    requires Enabled(s, a)
    ensures s.trace <= Next(s, a).trace
    ensures forall w :: |s.trace| <= w < |Next(s, a).trace| && Next(s, a).trace[w].Wrote? ==>
              && a.Execute? && Next(s, a).trace[w].call == a.c && Next(s, a).trace[w].req == s.calls[a.c].req
              && Executes(PolicyOf(s.policies, s.calls[a.c].req.conn), s.calls[a.c].req)
  {
    hide Canonical, Executes;
  }

  lemma {:induction false} CallsAreValidated(run: seq<Step>)
    requires IsRun(run)
    ensures forall c :: c in After(run).calls ==> Validated(After(run).calls[c].req)
  {
    if run != [] {
      hide Canonical, Validated, Executes, Allows, PolicyOf;
      CallsAreValidated(run[..|run| - 1]);
    }
  }

  /**
   Every write of a run was made by a step that executed its call, under the policy last set
   for its own connection: that is not read-only, allows deletions if it is one, and no
   topic is deleted twice. A connection that was never given a policy is never written.
   */
  lemma {:induction false} WrittenUnderItsPolicy(run: seq<Step>, w: nat) returns (k: nat, j: nat, p: Policy)
    requires IsRun(run) && w < |After(run).trace| && After(run).trace[w].Wrote?
    ensures var req := After(run).trace[w].req;
            && k < |run| && run[k] == Execute(After(run).trace[w].call) && LastSet(run, k, req.conn, j, p)
            && !p.readOnly && (!req.OffsetsReset? ==> p.allowDelete) && (req.TopicsDelete? ==> Distinct(req.topics))
  {
    var init, last := run[..|run| - 1], run[|run| - 1];
    var s := After(init);
    StepTrace(s, last);
    hide Next, Executes, Validated, Distinct;
    if w < |s.trace| {
      k, j, p := WrittenUnderItsPolicy(init, w);
    } else {
      k := |run| - 1;
      var req := s.calls[last.c].req;
      CallsAreValidated(init);
      ExecutesIff(s.policies, req);
      j := PoliciesAreSet(init, req.conn);
      p := s.policies[req.conn];
      assert LastSet(init, |init|, req.conn, j, p);
    }
  }

  // The store is left as the step k, a preview, has made it: what later steps present or draw
  // is not this token, and none of them is later than `now`.
  ghost predicate Unspent(run: seq<Step>, k: nat, token: Token, now: Time)
    requires IsRun(run)
    decreases |run|
  {
    k < |run| && (|run| == k + 1 ||
      var init, a := run[..|run| - 1], run[|run| - 1];
      && Unspent(init, k, token, now)
      && (a.UseStore? ==>
            var presented := After(init).calls[a.c].token;
            a.now <= now && token != (if presented == "" then a.drawn else presented)))
  }

  // Step k of the run previews the request and draws the token.
  ghost predicate PreviewsAt(run: seq<Step>, k: nat, req: Request, token: Token) {
    && k < |run| && IsRun(run[..k]) && run[k].UseStore? && Enabled(After(run[..k]), run[k])
    && After(run[..k]).calls[run[k].c].token == "" && After(run[..k]).calls[run[k].c].req == req
    && run[k].drawn == token
  }

  lemma {:induction false} TokenStays(run: seq<Step>, k: nat, req: Request, token: Token, now: Time)
    requires IsRun(run) && PreviewsAt(run, k, req, token) && Unspent(run, k, token, now)
    requires now < run[k].now + After(run[..k]).store.ttl
    ensures var items := After(run).store.items;
            token in items && items[token] == Entry(Canonical(req), run[k].now + After(run[..k]).store.ttl)
    decreases |run|
  {
    hide Canonical, Next, Enabled;
    var init := run[..|run| - 1];
    if |run| == k + 1 {
      assert run[..k] == init;
      PreviewStores(After(init), run[k], token);
    } else {
      assert init[..k] == run[..k] && init[k] == run[k];
      TokenStays(init, k, req, token, now);
      OthersKeepToken(After(init), run[|run| - 1], token, now);
    }
  }

  lemma PreviewStores(s: System, a: Step, token: Token)
    requires a.UseStore? && Enabled(s, a) && s.calls[a.c].token == "" && a.drawn == token
    ensures var items := Next(s, a).store.items;
            token in items && items[token] == Entry(Canonical(s.calls[a.c].req), a.now + s.store.ttl)
  {
    hide Canonical;
  }

  lemma OthersKeepToken(s: System, a: Step, token: Token, now: Time)
    requires Enabled(s, a) && token in s.store.items && now < s.store.items[token].expiresAt
    requires a.UseStore? ==> a.now <= now && token != (if s.calls[a.c].token == "" then a.drawn else s.calls[a.c].token)
    ensures token in Next(s, a).store.items && Next(s, a).store.items[token] == s.store.items[token]
  {
    hide Canonical;
  }

  // A call with a live, unexpired token of its own arguments.
  lemma LiveTokenWrites(s: System, c: CallId, now: Time, deadline: Time)
    requires c in s.calls && s.calls[c].stage.Gated? && s.calls[c].token != "" && s.calls[c].token in s.store.items
    requires s.store.items[s.calls[c].token] == Entry(Canonical(s.calls[c].req), deadline) && now < deadline
    requires Validated(s.calls[c].req)
    ensures var s', call := Next(s, UseStore(c, now, "x")), s.calls[c];
            && s'.calls[c].stage == Confirmed(now)
            && Next(s', Execute(c)).trace ==
               if Permits(s.policies, call.req)
               then s'.trace + [Wrote(c, call.req, call.token, now, s.policies[call.req.conn])] else s'.trace
  {
    ExecutesIff(s.policies, s.calls[c].req);
    hide Canonical, Executes;
  }

  /**
   Conversely, a call with the token and the arguments of an earlier preview is confirmed,
   if no step since has presented or drawn that token, the clock has not gone back and the
   TTL at the preview has not run out; and it then writes exactly when the policy allows it
   at that moment and the guard passes.
   */
  lemma MatchingTokenWrites(run: seq<Step>, k: nat, c: CallId, now: Time)
    requires IsRun(run) && c in After(run).calls && After(run).calls[c].stage.Gated? && After(run).calls[c].token != ""
    requires PreviewsAt(run, k, After(run).calls[c].req, After(run).calls[c].token)
    requires Unspent(run, k, After(run).calls[c].token, now) && now < run[k].now + After(run[..k]).store.ttl
    ensures var s := After(run);
            var s', call := Next(s, UseStore(c, now, "x")), s.calls[c];
            && s'.calls[c].stage == Confirmed(now)
            && Next(s', Execute(c)).trace ==
               if Permits(s.policies, call.req)
               then s'.trace + [Wrote(c, call.req, call.token, now, s.policies[call.req.conn])] else s'.trace
  {
    CallsAreValidated(run);
    hide Canonical, Executes, Next, Permits, Validated, Distinct;
    TokenStays(run, k, After(run).calls[c].req, After(run).calls[c].token, now);
    LiveTokenWrites(After(run), c, now, run[k].now + After(run[..k]).store.ttl);
  }

  // --- One call from start to end ----------------------------------------------------------------

  datatype Reply =
    | Preview(req: Request, token: Token, expiresAt: Time)
    | Done
    | Refused
    | TokenRejected(why: Result)

  class Server {
    const confirms: Confirms<seq<Field>>
    var policies: map<string, Policy>
    // The writes the service has carried out.
    var written: seq<Request>

    constructor ()
      ensures fresh(confirms) && confirms.State() == Empty() && policies == map[] && written == []
    {
      confirms := new Confirms();
      policies, written := map[], [];
    }

    // The service's own gate, then the write: only on a writable connection, deletions only
    // where they are allowed, and topics only if none is named twice.
    method ExecuteWrite(req: Request) returns (ok: bool)
      requires Validated(req)
      modifies `written
      ensures ok <==>
                && req.conn in policies && !policies[req.conn].readOnly
                && (!req.OffsetsReset? ==> policies[req.conn].allowDelete)
                && (req.TopicsDelete? ==> Distinct(req.topics))
      ensures written == if ok then old(written) + [req] else old(written)
    {
      if req.TopicsDelete? {
        GuardPassesIff(req.topics);
      }
      ok := Executes(PolicyOf(policies, req.conn), req);
      if ok { written := written + [req]; }
    }

    // The tool's gate followed by twoPhase.
    method CallTool(req: Request, token: Token, now: Time, drawn: Token) returns (r: Reply)
      requires Validated(req)
      modifies `written, confirms
      ensures var before := old(confirms.State());
              var allowed := && req.conn in policies && !policies[req.conn].readOnly
                             && (!req.OffsetsReset? ==> policies[req.conn].allowDelete);
              var outcome := Outcome(before, token, Canonical(req), now);
              && (!allowed ==> r == Refused && confirms.State() == before)
              && (allowed && token == "" ==>
                    && r == Preview(req, drawn, now + before.ttl)
                    && confirms.State() == Issued(before, drawn, Canonical(req), now))
              && (allowed && token != "" ==>
                    && confirms.State() == Consumed(before, token)
                    && r == if !outcome.Ok? then TokenRejected(outcome)
                            else if req.TopicsDelete? && !Distinct(req.topics) then Refused else Done)
              && written == (if r.Done? then old(written) + [req] else old(written))
    {
      hide Canonical, Distinct;
      if !Allows(PolicyOf(policies, req.conn), req) { return Refused; }
      var paramHash := Canonical(req);
      if token == "" {
        var expiresAt := confirms.IssueToken(paramHash, now, drawn);
        return Preview(req, drawn, expiresAt);
      }
      var result := confirms.ConsumeToken(token, paramHash, now);
      if !result.Ok? { return TokenRejected(result); }
      var ok := ExecuteWrite(req);
      return if ok then Done else Refused;
    }
  }
}
