/**
 One-time confirmation tokens (backend/internal/mcp/confirm.go).  Times are passed in, as in
 the program; the random token of Issue is a parameter.  SHA-256 is taken to be injective,
 so a parameter hash is the hashed value itself.
 */
module ConfirmStore {

  type Token = string
  type Time = int

  const DEFAULT_TTL := 60_000_000_000

  datatype Entry<H> = Entry(paramHash: H, expiresAt: Time)

  datatype Store<H> = Store(ttl: int, items: map<Token, Entry<H>>)

  datatype Result = Ok | Unknown | Expired | HashMismatch

  function Empty<H>(): Store<H> { Store(DEFAULT_TTL, map[]) }

  // --- The operations on values ----------------------------------------------------------------

  function WithTtl<H>(s: Store<H>, ttl: int): Store<H> { if ttl <= 0 then s else s.(ttl := ttl) }

  function Pruned<H>(s: Store<H>, now: Time): Store<H> {
    s.(items := map t | t in s.items && now < s.items[t].expiresAt :: s.items[t])
  }

  function Issued<H>(s: Store<H>, token: Token, paramHash: H, now: Time): Store<H> {
    var p := Pruned(s, now);
    p.(items := p.items[token := Entry(paramHash, now + s.ttl)])
  }

  function Outcome<H(==)>(s: Store<H>, token: Token, paramHash: H, now: Time): Result {
    if token !in s.items then Unknown
    else if now >= s.items[token].expiresAt then Expired
    else if s.items[token].paramHash != paramHash then HashMismatch
    else Ok
  }

  function Consumed<H>(s: Store<H>, token: Token): Store<H> { s.(items := s.items - {token}) }

  // --- Histories -------------------------------------------------------------------------------

  datatype Op<H> =
    | Issue(token: Token, paramHash: H, now: Time)
    | Consume(token: Token, now: Time)
    | SetTtl(ttl: int)

  function Apply<H>(s: Store<H>, op: Op<H>): Store<H> {
    match op
    case Issue(t, h, now) => Issued(s, t, h, now)
    case Consume(t, _) => Consumed(s, t)
    case SetTtl(ttl) => WithTtl(s, ttl)
  }

  function StoreAfter<H>(ops: seq<Op<H>>): Store<H> {
    if ops == [] then Empty() else Apply(StoreAfter(ops[..|ops| - 1]), ops[|ops| - 1])
  }

  // The TTL in force after a history: the last positive one set, or the default.
  function TtlAfter<H>(ops: seq<Op<H>>): int {
    if ops == [] then 60_000_000_000
    else if ops[|ops| - 1].SetTtl? && ops[|ops| - 1].ttl > 0 then ops[|ops| - 1].ttl
    else TtlAfter(ops[..|ops| - 1])
  }

  // When the token issued at position i of the history runs out.
  function Deadline<H>(ops: seq<Op<H>>, i: nat): Time
    requires i < |ops| && ops[i].Issue?
  {
    ops[i].now + TtlAfter(ops[..i])
  }

  // An operation that leaves a token with this deadline alone: it neither consumes nor
  // reissues it, nor prunes at or after the deadline.
  ghost predicate Spares<H>(op: Op<H>, token: Token, deadline: Time) {
    match op
    case Issue(t, _, now) => t != token && now < deadline
    case Consume(t, _) => t != token
    case SetTtl(_) => true
  }

  // Position i issued the token and nothing since has touched it.
  ghost predicate LiveSince<H>(ops: seq<Op<H>>, token: Token, i: nat) {
    && i < |ops| && ops[i].Issue? && ops[i].token == token
    && forall j :: i < j < |ops| ==> Spares(ops[j], token, Deadline(ops, i))
  }

  lemma DeadlinePrefix<H>(ops: seq<Op<H>>, op: Op<H>, i: nat)
    requires i < |ops| && ops[i].Issue?
    ensures Deadline(ops + [op], i) == Deadline(ops, i)
  {
    assert (ops + [op])[..i] == ops[..i];
  }

  lemma LiveAppend<H>(ops: seq<Op<H>>, op: Op<H>, token: Token, i: nat)
    requires i < |ops|
    ensures LiveSince(ops + [op], token, i) <==>
              LiveSince(ops, token, i) && Spares(op, token, Deadline(ops, i))
  {
    if ops[i].Issue? {
      DeadlinePrefix(ops, op, i);
      var more := ops + [op];
      assert more[|ops|] == op && forall j :: 0 <= j < |ops| ==> more[j] == ops[j];
    }
  }

  lemma {:induction false} TtlOfStore<H>(ops: seq<Op<H>>)
    ensures StoreAfter(ops).ttl == TtlAfter(ops)
  {
    if ops != [] {
      TtlOfStore(ops[..|ops| - 1]);
    }
  }

  // The table holds exactly the live tokens, bound to what they were issued for.
  lemma {:induction false} ItemsAreLiveTokens<H>(ops: seq<Op<H>>, token: Token)
    ensures token in StoreAfter(ops).items <==> exists i: nat :: LiveSince(ops, token, i)
    ensures forall i: nat :: LiveSince(ops, token, i) ==>
              StoreAfter(ops).items[token] == Entry(ops[i].paramHash, Deadline(ops, i))
  {
    if ops != [] {
      var init, op := ops[..|ops| - 1], ops[|ops| - 1];
      assert ops == init + [op];
      ItemsAreLiveTokens(init, token);
      TtlOfStore(init);
      var last := |ops| - 1;
      assert LiveSince(ops, token, last) <==> op.Issue? && op.token == token;
      forall i: nat | i < last
        ensures LiveSince(ops, token, i) <==> LiveSince(init, token, i) && Spares(op, token, Deadline(init, i))
        ensures init[i].Issue? ==> Deadline(ops, i) == Deadline(init, i)
      {
        LiveAppend(init, op, token, i);
        if init[i].Issue? { DeadlinePrefix(init, op, i); }
      }
      assert StoreAfter(ops) == Apply(StoreAfter(init), op);
      if token in StoreAfter(init).items {
        var i: nat :| LiveSince(init, token, i);
        assert LiveSince(ops, token, i) <==> Spares(op, token, Deadline(init, i));
      }
    }
  }

  /**
   A confirmation succeeds exactly when some earlier issue of that very token, for the same
   parameters, is still live and its deadline has not come.
   */
  lemma ConfirmsIff<H>(ops: seq<Op<H>>, token: Token, paramHash: H, now: Time)
    ensures Outcome(StoreAfter(ops), token, paramHash, now) == Ok <==>
              exists i: nat :: LiveSince(ops, token, i) && ops[i].paramHash == paramHash && now < Deadline(ops, i)
    ensures Outcome(StoreAfter(ops), token, paramHash, now) == Unknown <==> !exists i: nat :: LiveSince(ops, token, i)
    ensures Outcome(StoreAfter(ops), token, paramHash, now) == Expired <==>
              exists i: nat :: LiveSince(ops, token, i) && now >= Deadline(ops, i)
  {
    ItemsAreLiveTokens(ops, token);
  }

  // Times never go back, up to `now`.
  ghost predicate Monotone<H>(ops: seq<Op<H>>, now: Time) {
    && (forall i :: 0 <= i < |ops| && !ops[i].SetTtl? ==> ops[i].now <= now)
    && (forall i, j :: 0 <= i < j < |ops| && !ops[i].SetTtl? && !ops[j].SetTtl? ==> ops[i].now <= ops[j].now)
  }

  /** With a clock that never goes back, an unused and unexpired token confirms. */
  lemma UnusedTokenConfirms<H>(ops: seq<Op<H>>, i: nat, now: Time)
    requires i < |ops| && ops[i].Issue? && Monotone(ops, now) && now < Deadline(ops, i)
    requires forall j :: i < j < |ops| && !ops[j].SetTtl? ==> ops[j].token != ops[i].token
    ensures Outcome(StoreAfter(ops), ops[i].token, ops[i].paramHash, now) == Ok
  {
    assert LiveSince(ops, ops[i].token, i);
    ConfirmsIff(ops, ops[i].token, ops[i].paramHash, now);
  }

  /** A token confirms at most once: after any Consume it is gone until it is issued again. */
  lemma ConsumedTokenIsGone<H>(ops: seq<Op<H>>, i: nat, paramHash: H, now: Time)
    requires i < |ops| && ops[i].Consume?
    requires forall j :: i < j < |ops| && ops[j].Issue? ==> ops[j].token != ops[i].token
    ensures Outcome(StoreAfter(ops), ops[i].token, paramHash, now) == Unknown
  {
    ConfirmsIff(ops, ops[i].token, paramHash, now);
    forall k: nat
      ensures !LiveSince(ops, ops[i].token, k)
    {
      assert k < i && ops[k].Issue? ==> !Spares(ops[i], ops[i].token, Deadline(ops, k));
    }
  }

  // --- The store itself ------------------------------------------------------------------------

  class Confirms<H(==)> {
    var ttl: int
    var items: map<Token, Entry<H>>

    function State(): Store<H>
      reads this
    {
      Store(ttl, items)
    }

    constructor ()
      ensures State() == Empty()
    {
      ttl, items := DEFAULT_TTL, map[];
    }

    method SetTTL(d: int)
      modifies this
      ensures State() == WithTtl(old(State()), d)
    {
      if d <= 0 { return; }
      ttl := d;
    }

    method IssueToken(paramHash: H, now: Time, token: Token) returns (expiresAt: Time)
      modifies this
      ensures State() == Issued(old(State()), token, paramHash, now)
      ensures expiresAt == State().items[token].expiresAt == now + ttl
    {
      Prune(now);
      expiresAt := now + ttl;
      items := items[token := Entry(paramHash, expiresAt)];
    }

    method Prune(now: Time)
      modifies this
      ensures State() == Pruned(old(State()), now)
    {
      var todo := items.Keys;
      while todo != {}
        invariant ttl == old(ttl) && todo <= items.Keys
        invariant items.Keys <= old(items).Keys && forall t :: t in items ==> items[t] == old(items)[t]
        invariant forall t :: t in old(items) && t !in todo ==> (t in items <==> now < old(items)[t].expiresAt)
        decreases todo
      {
        var token :| token in todo;
        todo := todo - {token};
        if now >= items[token].expiresAt {
          items := items - {token};
        }
      }
    }

    method ConsumeToken(token: Token, paramHash: H, now: Time) returns (r: Result)
      modifies this
      ensures r == Outcome(old(State()), token, paramHash, now)
      ensures State() == Consumed(old(State()), token)
    {
      if token !in items { return Unknown; }
      var entry := items[token];
      items := items - {token};
      if now >= entry.expiresAt { return Expired; }
      if entry.paramHash != paramHash { return HashMismatch; }
      return Ok;
    }
  }
}
