/** What the nodes are bound to gossip: credits, acknowledgements, retries (dynamic_sharding.py). */
module ShardGossip {
  import opened Coordinator
  import opened Sharding
  import opened ShardNetwork
  import opened ShardOutcomes

  // ---------------------------------------------------------------- what one node owes the network

  /** A gossiping node has sent an acknowledgement for every signer it recorded and every key it filters on. */
  ghost predicate Told(n: Node, sent: set<Message>) {
    n.gossips ==>
      && (forall tx, s, id | id in n.books.Signers(tx, s) :: Ack(tx, s, id) in sent)
      && (forall k: Signature | k in n.seen || k in n.relayed :: Ack(k.0, k.1, k.2) in sent)
  }

  /** Every debited transfer waits to be retried. */
  ghost predicate Waiting(n: Node) {
    forall tx | tx in n.transfers && n.transfers[tx].status == Debited :: tx in n.pending
  }

  ghost function With(sent: set<Message>, o: Outcome): set<Message> { sent + set m | m in o.sent }

  /** A call keeps both, and does not change whether the node gossips. */
  ghost predicate Tells(n: Node, o: Outcome, sent: set<Message>) {
    o.node.gossips == n.gossips && Told(o.node, With(sent, o))
  }

  lemma {:induction false} WithoutKeepsOthers(s: seq<TxId>, tx: TxId, k: TxId)
    requires k in s && k != tx
    ensures k in Without(s, tx)
  {
    if s[0] != tx && k != s[0] {
      assert k in s[1..];
      WithoutKeepsOthers(s[1..], tx, k);
    }
  }

  /** Recording an acknowledgement that is, or is about to be, on the network. */
  lemma AckedTells(n: Node, sent: set<Message>, tx: TxId, s: Shard, id: Id)
    requires BooksOk(n) && Told(n, sent) && Ack(tx, s, id) in sent
    ensures Told(n.(books := n.books.ValidatorAck(tx, s, id)), sent)
  {
    hide QuorumSize, Books.ValidatorAck;
    var b := n.books.ValidatorAck(tx, s, id);
    forall k, u, x | x in b.Signers(k, u) ensures n.gossips ==> Ack(k, u, x) in sent {
      if x !in n.books.Signers(k, u) { ValidatorAckAdds(n.books, tx, s, id, k, u, x); }
    }
  }

  lemma GossipOwnTells(n: Node, sent: set<Message>, tx: TxId, s: Shard, id: Id)
    requires BooksOk(n) && Told(n, sent) && id != ""
    ensures Tells(n, GossipOwn(n.(books := n.books.ValidatorAck(tx, s, id)), tx, s, id), sent)
  {
    hide QuorumSize, Books.ValidatorAck;
    var all := sent + {Ack(tx, s, id)};
    if n.gossips {
      assert Told(n, all);
      AckedTells(n, all, tx, s, id);
      if (tx, s, id) in n.seen { assert all == sent; }
    }
  }

  lemma ShardAckedTells(n: Node, sent: set<Message>, tx: TxId, s: Shard)
    requires BooksOk(n) && Told(n, sent)
    ensures Tells(n, ShardAcked(n, tx, s), sent) && ShardAcked(n, tx, s).node.pending == n.pending
  {
    hide QuorumSize, Books.ValidatorAck;
    if n.books.Committee(s) != {} && n.id != "" { GossipOwnTells(n, sent, tx, s, n.id); }
  }

  lemma SubmittedTells(n: Node, sent: set<Message>, tx: TxId, t: Transfer)
    requires BooksOk(n) && Told(n, sent) && Waiting(n)
    ensures Tells(n, Submitted(n, tx, t), sent) && Waiting(Submitted(n, tx, t).node)
    ensures CanDebit(n, t) && n.gossips ==> Payload(tx, t) in Submitted(n, tx, t).sent
  {
    hide QuorumSize, ShardAcked;
    SubmittedEffect(n, tx, t);
    if CanDebit(n, t) {
      var paid := Paid(n, tx, t);
      assert Told(paid, sent) by { BeginTells(n.books, tx, t); }
      ShardAckedTells(paid, sent, tx, t.origin);
    } else {
      BeginTells(n.books, tx, t);
      forall k | k in n.pending && k != tx ensures k in Without(n.pending + [tx], tx) {
        WithoutKeepsOthers(n.pending + [tx], tx, k);
      }
    }
  }

  /** Beginning a transfer, or clearing it, records no signer. */
  lemma BeginTells(b: Books, tx: TxId, t: Transfer)
    ensures forall k, u, x :: x in b.Begin(tx, t.origin, t.target).Signers(k, u) ==> x in b.Signers(k, u)
    ensures forall k, u, x :: x in b.Clear(tx).Signers(k, u) ==> x in b.Signers(k, u)
  {
  }

  lemma CreditedTells(n: Node, sent: set<Message>, m: Message)
    requires BooksOk(n) && Told(n, sent) && Waiting(n) && m.Credit?
    ensures Tells(n, Credited(n, m).0, sent) && Waiting(Credited(n, m).0.node)
  {
    hide QuorumSize, ShardAcked, Books.Reached;
    CreditedEffect(n, m);
    if Pays(n, m) {
      var paid := n.(balances := n.balances[m.recipient := Balance(n.balances, m.recipient) + m.amount],
                     transfers := n.transfers[m.tx := PaidTransfer(n, m)], pending := Without(n.pending, m.tx));
      ShardAckedTells(paid, sent, m.tx, m.target);
      ShardAckedQuiet(paid, m.tx, m.target);
      BeginTells(ShardAcked(paid, m.tx, m.target).node.books, m.tx, PaidTransfer(n, m));
      forall k | k in n.pending && k != m.tx ensures k in Without(n.pending, m.tx) {
        WithoutKeepsOthers(n.pending, m.tx, k);
      }
    }
  }

  lemma AckRecordedTells(n: Node, sent: set<Message>, m: Message, ownsOrigin: bool)
    requires BooksOk(n) && Told(n, sent) && m.Ack? && m in sent
    ensures Tells(n, AckRecorded(n, m, ownsOrigin), sent) && AckRecorded(n, m, ownsOrigin).node.pending == n.pending
  {
    hide QuorumSize, ShardAcked, Books.ValidatorAck;
    if m.id != "" {
      AckedTells(n, sent, m.tx, m.shard, m.id);
    } else {
      ShardAckedTells(n, sent, m.tx, m.shard);
    }
  }

  lemma AckReceivedTells(n: Node, sent: set<Message>, m: Message)
    requires BooksOk(n) && Told(n, sent) && Waiting(n) && m.Ack? && m in sent
    ensures Tells(n, AckReceived(n, m).0, sent) && Waiting(AckReceived(n, m).0.node)
  {
    hide QuorumSize, AckRecorded, Books.Reached;
    if m.tx in n.transfers {
      var owns := n.transfers[m.tx].origin == n.shard;
      AckRecordedTells(n, sent, m, owns);
      AckRecordedQuiet(n, m, owns);
      BeginTells(AckRecorded(n, m, owns).node.books, m.tx, n.transfers[m.tx]);
      forall k | k in n.pending && k != m.tx ensures k in Without(n.pending, m.tx) {
        WithoutKeepsOthers(n.pending, m.tx, k);
      }
    }
  }

  // ---------------------------------------------------------------- what the whole network owes

  ghost predicate CreditSent(net: Net, tx: TxId)
    requires tx in net.orders
  {
    var s := net.orders[tx].origin;
    s in net.nodes && (net.nodes[s].gossips ==> Payload(tx, net.orders[tx]) in net.sent)
  }

  ghost predicate AllTold(net: Net) {
    && (forall tx | tx in net.debited :: tx in net.orders && CreditSent(net, tx))
    && (forall s | s in net.nodes :: Told(net.nodes[s], net.sent) && Waiting(net.nodes[s]))
  }

  lemma MoreTold(n: Node, sent: set<Message>, more: set<Message>)
    requires Told(n, sent) && sent <= more
    ensures Told(n, more)
  {
  }

  /** One node's truthful call keeps the whole network's account. */
  lemma ApplyTells(net: Net, s: Shard, o: Outcome)
    requires AllTold(net) && s in net.nodes && Tells(net.nodes[s], o, net.sent) && Waiting(o.node)
    requires o.move.Debit? ==> o.move.tx in net.orders && net.orders[o.move.tx].origin == s
    requires o.move.Debit? && net.nodes[s].gossips ==> Payload(o.move.tx, net.orders[o.move.tx]) in o.sent
    ensures AllTold(Apply(net, s, o))
  {
    hide Told, Waiting;
    var net' := Apply(net, s, o);
    forall u | u in net'.nodes ensures Told(net'.nodes[u], net'.sent) {
      if u != s { MoreTold(net.nodes[u], net.sent, net'.sent); }
    }
    forall tx | tx in net'.debited ensures CreditSent(net', tx) {
      if tx in net.debited { assert CreditSent(net, tx); }
    }
  }

  lemma SubmitTells(net: Net, tx: TxId, t: Transfer)
    requires Setup(net) && MoneyOk(net) && AllTold(net) && Enabled(net, Submit(tx, t))
    ensures AllTold(Next(net, Submit(tx, t)))
  {
    hide QuorumSize, Submitted, Told, Waiting, MoneyOk;
    var ordered := net.(orders := net.orders[tx := t]);
    var n := net.nodes[t.origin];
    SubmittedTells(n, net.sent, tx, t);
    SubmittedEffect(n, tx, t);
    forall k | k in ordered.debited ensures CreditSent(ordered, k) { assert CreditSent(net, k); }
    ApplyTells(ordered, t.origin, Submitted(n, tx, t));
  }

  lemma NextTells(net: Net, a: Action)
    requires Setup(net) && MoneyOk(net) && AllTold(net) && Enabled(net, a)
    ensures AllTold(Next(net, a))
  {
    hide QuorumSize, Submitted, Credited, AckReceived, ValidatorSigned, Told, Waiting, MoneyOk;
    match a {
      case Submit(tx, t) => SubmitTells(net, tx, t);
      case DeliverCredit(s, m) =>
        CreditedTells(net.nodes[s], net.sent, m);
        CreditedEffect(net.nodes[s], m);
        ApplyTells(net, s, Credited(net.nodes[s], m).0);
      case DeliverAck(s, m) =>
        AckReceivedTells(net.nodes[s], net.sent, m);
        AckReceivedEffect(net.nodes[s], m);
        ApplyTells(net, s, AckReceived(net.nodes[s], m).0);
      case Sign(_, _, _) => SentMore(net, Next(net, a));
      case SelfSign(s, tx, sh, id) =>
        SignedTells(net.nodes[s], net.sent, tx, sh, id);
        ValidatorSignedQuiet(net.nodes[s], tx, sh, id);
        ApplyTells(net, s, ValidatorSigned(net.nodes[s], tx, sh, id));
      case Retry(s) => SentMore(net, Next(net, a));
    }
  }

  lemma SignedTells(n: Node, sent: set<Message>, tx: TxId, s: Shard, id: Id)
    requires BooksOk(n) && Told(n, sent) && Waiting(n)
    ensures Tells(n, ValidatorSigned(n, tx, s, id), sent) && Waiting(ValidatorSigned(n, tx, s, id).node)
  {
    hide QuorumSize, Books.ValidatorAck;
    if id != "" { GossipOwnTells(n, sent, tx, s, id); }
  }

  lemma SentMore(net: Net, net': Net)
    requires AllTold(net) && net.sent <= net'.sent && net' == net.(sent := net'.sent, signed := net'.signed)
    ensures AllTold(net')
  {
    hide Told, Waiting;
    forall u | u in net'.nodes ensures Told(net'.nodes[u], net'.sent) { MoreTold(net.nodes[u], net.sent, net'.sent); }
    forall tx | tx in net'.debited ensures CreditSent(net', tx) { assert CreditSent(net, tx); }
  }

  // ---------------------------------------------------------------- over runs

  /** Besides the network's money, nobody starts with acknowledgements already filtered. */
  ghost predicate Quietly(net: Net) {
    forall s | s in net.nodes :: net.nodes[s].seen == {} && net.nodes[s].relayed == {}
  }

  /**
   * In every reachable state the credit message of every debited transfer has been gossiped if its origin
   * gossips, and so has an acknowledgement of every signer a gossiping node has on its books.
   */
  lemma {:induction false} EverythingIsGossiped(nets: seq<Net>, actions: seq<Action>, i: nat)
    requires Run(nets, actions) && Quietly(nets[0]) && i < |nets|
    ensures AllTold(nets[i])
  {
    hide QuorumSize, Next, MoneyOk, AllTold;
    if i == 0 {
      StartTells(nets[0]);
    } else {
      EverythingIsGossiped(nets, actions, i - 1);
      RunStep(nets, actions, i - 1);
      NextTells(nets[i - 1], actions[i - 1]);
    }
  }

  lemma StartTells(net: Net)
    requires Initial(net) && Quietly(net)
    ensures AllTold(net)
  {
  }

  /** In every reachable state a retry at a gossiping node sends the credit of exactly the transfers debited there. */
  lemma RetryCoversDebited(nets: seq<Net>, actions: seq<Action>, i: nat, s: Shard, m: Message)
    requires Run(nets, actions) && Quietly(nets[0]) && i < |nets| && s in nets[i].nodes
    ensures var n := nets[i].nodes[s];
            m in Regossip(n, n.pending) <==>
            (n.gossips && m.Credit? && m.tx in n.transfers && n.transfers[m.tx].status == Debited
             && m == Payload(m.tx, n.transfers[m.tx]))
  {
    EverythingIsGossiped(nets, actions, i);
    RegossipExactly(nets[i].nodes[s], nets[i].nodes[s].pending);
  }
}
