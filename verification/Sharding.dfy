/** One node of the cross-shard transfer protocol in distributed mode (dynamic_sharding.py). */
module Sharding {
  import opened Coordinator

  type Address = string
  type Balances = map<Address, nat>

  datatype Status = Pending | Debited | Confirmed | Failed

  datatype Transfer = Transfer(origin: Shard, target: Shard, sender: Address, recipient: Address, amount: int, status: Status)

  /** Gossip: a debited transfer on its way to the target shard, or one acknowledgement. */
  datatype Message =
    | Credit(tx: TxId, origin: Shard, target: Shard, sender: Address, recipient: Address, amount: int)
    | Ack(tx: TxId, shard: Shard, id: Id)

  type Signature = (TxId, Shard, Id)

  /** What a call did to the books of account. */
  datatype Move = NoMove | Debit(tx: TxId, amount: nat) | CreditTo(tx: TxId, amount: nat)

  datatype Node = Node(
    shard: Shard,
    id: Id,
    gossips: bool,
    balances: Balances,
    transfers: map<TxId, Transfer>,
    pending: seq<TxId>,
    seen: set<Signature>,
    relayed: set<Signature>,
    books: Books)

  /** The node after a call, the messages it gossips, the signatures it adds, and the money it moves. */
  datatype Outcome = Outcome(node: Node, sent: seq<Message>, signed: set<Signature>, move: Move)

  function Balance(b: Balances, a: Address): nat { if a in b then b[a] else 0 }

  function Without(s: seq<TxId>, tx: TxId): seq<TxId> {
    if s == [] then [] else if s[0] == tx then s[1..] else [s[0]] + Without(s[1..], tx)
  }

  // ---------------------------------------------------------------- acknowledgements

  function GossipOwn(n: Node, tx: TxId, s: Shard, id: Id): Outcome {
    if id == "" || !n.gossips || (tx, s, id) in n.seen then Outcome(n, [], {(tx, s, id)}, NoMove)
    else Outcome(n.(seen := n.seen + {(tx, s, id)}), [Ack(tx, s, id)], {(tx, s, id)}, NoMove)
  }

  function Relay(n: Node, tx: TxId, s: Shard, id: Id): Outcome {
    if id == "" || !n.gossips || (tx, s, id) in n.relayed then Outcome(n, [], {}, NoMove)
    else Outcome(n.(relayed := n.relayed + {(tx, s, id)}), [Ack(tx, s, id)], {}, NoMove)
  }

  ghost predicate BooksOk(n: Node) { 0.5 <= n.books.fraction <= 1.0 }

  /** `_record_shard_ack`: sign as this node where a committee exists, else acknowledge for the shard. */
  function ShardAcked(n: Node, tx: TxId, s: Shard): (o: Outcome)
    requires BooksOk(n)
    ensures BooksOk(o.node)
  {
    if n.books.Committee(s) != {} then
      if n.id == "" then Outcome(n, [], {}, NoMove)
      else GossipOwn(n.(books := n.books.ValidatorAck(tx, s, n.id)), tx, s, n.id)
    else Outcome(n.(books := n.books.ShardAck(tx, s)), [], {}, NoMove)
  }

  /** This node's own acknowledgement for the shard is one the coordinator accepts. */
  predicate CountsFor(n: Node, tx: TxId, s: Shard) {
    if n.books.Committee(s) != {} then n.books.Accepts(tx, s, n.id) else n.books.AcceptsShard(tx, s)
  }

  /** `submit_cross_shard_validator_ack`: a committee member signs without moving money. */
  function ValidatorSigned(n: Node, tx: TxId, s: Shard, id: Id): Outcome
    requires BooksOk(n)
  {
    if id == "" then Outcome(n, [], {}, NoMove)
    else GossipOwn(n.(books := n.books.ValidatorAck(tx, s, id)), tx, s, id)
  }

  // ---------------------------------------------------------------- debit, credit, confirm

  function Payload(tx: TxId, t: Transfer): Message { Credit(tx, t.origin, t.target, t.sender, t.recipient, t.amount) }

  predicate CanDebit(n: Node, t: Transfer) {
    t.amount > 0 && t.sender != "" && t.recipient != "" && Balance(n.balances, t.sender) >= t.amount
  }

  /** The transfer begun and its sender debited, before anything is acknowledged. */
  function Paid(n: Node, tx: TxId, t: Transfer): Node
    requires CanDebit(n, t)
  {
    n.(transfers := n.transfers[tx := t.(status := Debited)], pending := n.pending + [tx],
       books := n.books.Begin(tx, t.origin, t.target),
       balances := n.balances[t.sender := Balance(n.balances, t.sender) - t.amount])
  }

  /** `add_transaction` for a transfer to another shard, on the node that owns the sender's shard. */
  function Submitted(n: Node, tx: TxId, t: Transfer): Outcome
    requires BooksOk(n)
  {
    if CanDebit(n, t) then
      var acked := ShardAcked(Paid(n, tx, t), tx, t.origin);
      Outcome(acked.node, acked.sent + if n.gossips then [Payload(tx, t)] else [], acked.signed, Debit(tx, t.amount))
    else
      Outcome(n.(transfers := n.transfers[tx := t.(status := Failed)], pending := Without(n.pending + [tx], tx),
                 books := n.books.Begin(tx, t.origin, t.target)), [], {}, NoMove)
  }

  /** `receive_cross_shard_credit`: pay out once, on the target shard only. */
  function Credited(n: Node, m: Message): (Outcome, bool)
    requires BooksOk(n) && m.Credit?
  {
    var idle := Outcome(n, [], {}, NoMove);
    if m.target != n.shard || m.tx == "" then (idle, false)
    else if m.tx in n.transfers && n.transfers[m.tx].status == Confirmed then (idle, true)
    else if m.amount <= 0 || m.recipient == "" then (idle, false)
    else
      var t := if m.tx in n.transfers then n.transfers[m.tx].(amount := m.amount, status := Confirmed)
               else Transfer(m.origin, m.target, m.sender, m.recipient, m.amount, Confirmed);
      var paid := n.(balances := n.balances[m.recipient := Balance(n.balances, m.recipient) + m.amount],
                     transfers := n.transfers[m.tx := t], pending := Without(n.pending, m.tx));
      var acked := ShardAcked(paid, m.tx, m.target);
      var closed := if acked.node.books.Reached(m.tx) then acked.node.(books := acked.node.books.Clear(m.tx)) else acked.node;
      (Outcome(closed, acked.sent, acked.signed, CreditTo(m.tx, m.amount)), true)
  }

  /** The recording half of `receive_cross_shard_ack`. */
  function AckRecorded(n: Node, m: Message, ownsOrigin: bool): (o: Outcome)
    requires BooksOk(n) && m.Ack?
    ensures BooksOk(o.node)
  {
    if m.id != "" then
      var key := (m.tx, m.shard, m.id);
      var noted := if key in n.seen then n
                   else n.(seen := n.seen + {key}, books := n.books.ValidatorAck(m.tx, m.shard, m.id));
      Relay(noted, m.tx, m.shard, m.id)
    else if ownsOrigin then ShardAcked(n, m.tx, m.shard)
    else Outcome(n, [], {}, NoMove)
  }

  /** `receive_cross_shard_ack`: record, relay once, and confirm on the origin shard at quorum. */
  function AckReceived(n: Node, m: Message): (Outcome, bool)
    requires BooksOk(n) && m.Ack?
  {
    if m.tx == "" || m.tx !in n.transfers then (Outcome(n, [], {}, NoMove), false)
    else
      var t := n.transfers[m.tx];
      if t.origin != n.shard && t.target != n.shard then (Outcome(n, [], {}, NoMove), false)
      else
        var o := AckRecorded(n, m, t.origin == n.shard);
        if t.origin == n.shard && o.node.books.Reached(m.tx) then
          (o.(node := o.node.(books := o.node.books.Clear(m.tx),
                              transfers := o.node.transfers[m.tx := t.(status := Confirmed)],
                              pending := Without(o.node.pending, m.tx))), true)
        else (o, true)
  }

  /** `process_cross_shard_transactions`: gossip every debited transfer still pending again. */
  function Regossip(n: Node, todo: seq<TxId>): seq<Message> {
    if todo == [] then []
    else
      var tx := todo[|todo| - 1];
      Regossip(n, todo[..|todo| - 1]) +
      if n.gossips && tx in n.transfers && n.transfers[tx].status == Debited then [Payload(tx, n.transfers[tx])] else []
  }

  /** Every pending debited transfer is gossiped again, and nothing else. */
  lemma {:induction false} RegossipExactly(n: Node, todo: seq<TxId>)
    ensures forall m :: m in Regossip(n, todo) <==>
              (n.gossips && m.Credit? && m.tx in todo && m.tx in n.transfers
               && n.transfers[m.tx].status == Debited && m == Payload(m.tx, n.transfers[m.tx]))
  {
    if todo != [] {
      RegossipExactly(n, todo[..|todo| - 1]);
      assert todo == todo[..|todo| - 1] + [todo[|todo| - 1]];
    }
  }

  // ---------------------------------------------------------------- the node as an object

  class ShardingManager {
    const shard: Shard
    const id: Id
    const gossips: bool
    const coordinator: CrossShardCoordinator
    var balances: Balances
    var transfers: map<TxId, Transfer>
    var pending: seq<TxId>
    var seen: set<Signature>
    var relayed: set<Signature>

    ghost predicate Valid() { coordinator.Valid() }

    ghost function View(): Node
      reads this, coordinator
    {
      Node(shard, id, gossips, balances, transfers, pending, seen, relayed, coordinator.View())
    }

    constructor (shard: Shard, id: Id, gossips: bool, coordinator: CrossShardCoordinator, balances: Balances)
      requires coordinator.Valid()
      ensures Valid() && View() == Node(shard, id, gossips, balances, map[], [], {}, {}, coordinator.View())
    {
      this.shard, this.id, this.gossips, this.coordinator := shard, id, gossips, coordinator;
      this.balances, transfers, pending, seen, relayed := balances, map[], [], {}, {};
    }

    method RecordShardAck(tx: TxId, s: Shard) returns (ok: bool, sent: seq<Message>)
      requires Valid()
      modifies this`seen, coordinator
      ensures View() == ShardAcked(old(View()), tx, s).node && sent == ShardAcked(old(View()), tx, s).sent
      ensures ok == (CountsFor(old(View()), tx, s) && View().books.Reached(tx))
    {
      hide QuorumSize;
      if s in coordinator.committees && coordinator.committees[s] != {} {
        if id == "" { return false, []; }
        ok := coordinator.RecordValidatorAck(tx, s, id);
        sent := GossipValidatorAck(tx, s, id);
      } else {
        ok := coordinator.RecordAck(tx, s);
        sent := [];
      }
    }

    method GossipValidatorAck(tx: TxId, s: Shard, who: Id) returns (sent: seq<Message>)
      modifies this`seen
      ensures View() == GossipOwn(old(View()), tx, s, who).node && sent == GossipOwn(old(View()), tx, s, who).sent
      ensures sent == if who != "" && gossips && (tx, s, who) !in old(seen) then [Ack(tx, s, who)] else []
      ensures seen == if who != "" && gossips then old(seen) + {(tx, s, who)} else old(seen)
    {
      if who == "" || !gossips { return []; }
      if (tx, s, who) in seen { return []; }
      seen := seen + {(tx, s, who)};
      return [Ack(tx, s, who)];
    }

    method SubmitValidatorAck(tx: TxId, s: Shard, who: Id) returns (ok: bool, sent: seq<Message>)
      requires Valid()
      modifies this`seen, coordinator
      ensures View() == ValidatorSigned(old(View()), tx, s, who).node && sent == ValidatorSigned(old(View()), tx, s, who).sent
      ensures ok == (old(View()).books.Accepts(tx, s, who) && View().books.Reached(tx))
    {
      hide QuorumSize;
      if who == "" { return false, []; }
      ok := coordinator.RecordValidatorAck(tx, s, who);
      sent := GossipValidatorAck(tx, s, who);
    }

    /** `_debit_cross_shard_source`: take the amount from the sender, or nothing. */
    method DebitSource(t: Transfer) returns (ok: bool)
      modifies this`balances
      ensures ok == CanDebit(old(View()), t)
      ensures ok == (t.amount > 0 && t.sender != "" && t.recipient != "" && Balance(old(balances), t.sender) >= t.amount)
      ensures balances == if ok then old(balances)[t.sender := Balance(old(balances), t.sender) - t.amount] else old(balances)
    {
      ok := t.amount > 0 && t.sender != "" && t.recipient != "" && Balance(balances, t.sender) >= t.amount;
      if ok { balances := balances[t.sender := Balance(balances, t.sender) - t.amount]; }
    }

    method AddTransfer(tx: TxId, t: Transfer) returns (sent: seq<Message>)
      requires Valid()
      modifies this, coordinator
      ensures View() == Submitted(old(View()), tx, t).node && sent == Submitted(old(View()), tx, t).sent
      ensures old(CanDebit(View(), t)) && gossips ==> Payload(tx, t) in sent
      ensures old(CanDebit(View(), t)) ==> tx in transfers && transfers[tx].status == Debited && tx in pending
      ensures !old(CanDebit(View(), t)) ==> sent == [] && tx in transfers && transfers[tx].status == Failed
    {
      hide QuorumSize, ShardAcked, Without, Books.Begin;
      ghost var before := View();
      transfers := transfers[tx := t.(status := Pending)];
      pending := pending + [tx];
      coordinator.BeginTransfer(tx, t.origin, t.target);
      var debited := DebitSource(t);
      transfers := transfers[tx := t.(status := if debited then Debited else Failed)];
      assert transfers == before.transfers[tx := t.(status := if debited then Debited else Failed)];
      if debited {
        assert View() == Paid(before, tx, t);
        var ok;
        ok, sent := RecordShardAck(tx, t.origin);
        if gossips { sent := sent + [Payload(tx, t)]; }
      } else {
        pending := Without(pending, tx);
        sent := [];
      }
    }

    method ReceiveCredit(m: Message) returns (credited: bool, sent: seq<Message>)
      requires Valid() && m.Credit?
      modifies this, coordinator
      ensures View() == Credited(old(View()), m).0.node && sent == Credited(old(View()), m).0.sent
      ensures credited == Credited(old(View()), m).1
    {
      hide QuorumSize, ShardAcked, GossipOwn;
      sent := [];
      if m.target != shard || m.tx == "" { return false, sent; }
      if m.tx in transfers && transfers[m.tx].status == Confirmed { return true, sent; }
      if m.amount <= 0 || m.recipient == "" { return false, sent; }
      balances := balances[m.recipient := Balance(balances, m.recipient) + m.amount];
      var t := if m.tx in transfers then transfers[m.tx].(amount := m.amount, status := Confirmed)
               else Transfer(m.origin, m.target, m.sender, m.recipient, m.amount, Confirmed);
      transfers := transfers[m.tx := t];
      pending := Without(pending, m.tx);
      ghost var paid := View();
      var ok;
      ok, sent := RecordShardAck(m.tx, m.target);
      assert View() == ShardAcked(paid, m.tx, m.target).node;
      var reached := coordinator.QuorumReached(m.tx);
      if reached { coordinator.Clear(m.tx); }
      credited := true;
    }

    method ReceiveAck(m: Message) returns (known: bool, sent: seq<Message>)
      requires Valid() && m.Ack?
      modifies this, coordinator
      ensures View() == AckReceived(old(View()), m).0.node && sent == AckReceived(old(View()), m).0.sent
      ensures known == AckReceived(old(View()), m).1
      ensures known && m.id != "" ==>
                && sent == (if gossips && (m.tx, m.shard, m.id) !in old(relayed) then [m] else [])
                && relayed == (if gossips then old(relayed) + {(m.tx, m.shard, m.id)} else old(relayed))
    {
      hide QuorumSize;
      sent := [];
      if m.tx == "" || m.tx !in transfers { return false, sent; }
      var t := transfers[m.tx];
      if t.origin != shard && t.target != shard { return false, sent; }
      if m.id != "" {
        var key := (m.tx, m.shard, m.id);
        if key !in seen {
          seen := seen + {key};
          var reached := coordinator.RecordValidatorAck(m.tx, m.shard, m.id);
        }
        if gossips && key !in relayed {
          relayed := relayed + {key};
          sent := [Ack(m.tx, m.shard, m.id)];
        }
      } else if t.origin == shard {
        var ok;
        ok, sent := RecordShardAck(m.tx, m.shard);
      }
      if t.origin == shard {
        var reached := coordinator.QuorumReached(m.tx);
        if reached {
          coordinator.Clear(m.tx);
          transfers := transfers[m.tx := t.(status := Confirmed)];
          pending := Without(pending, m.tx);
        }
      }
      known := true;
    }

    method ProcessPending() returns (sent: seq<Message>)
      ensures sent == Regossip(View(), pending)
      ensures forall m :: m in sent <==> (gossips && m.Credit? && m.tx in pending && m.tx in transfers
                                          && transfers[m.tx].status == Debited && m == Payload(m.tx, transfers[m.tx]))
    {
      sent := [];
      for i := 0 to |pending|
        invariant sent == Regossip(View(), pending[..i])
      {
        var tx := pending[i];
        assert pending[..i + 1][..i] == pending[..i];
        if gossips && tx in transfers && transfers[tx].status == Debited {
          sent := sent + [Payload(tx, transfers[tx])];
        }
      }
      assert pending[..|pending|] == pending;
      RegossipExactly(View(), pending);
    }
  }
}
