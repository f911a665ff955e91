/** Shard nodes over a gossip network that drops, duplicates and reorders. */
module ShardNetwork {
  import opened Collections
  import opened Coordinator
  import opened Sharding

  /**
   * The whole system: one node per shard and every message ever gossiped. Deliveries pick any sent
   * message any number of times, which covers loss, duplication and reordering. `orders`, `debited`
   * and `credited` record what was submitted, paid in and paid out.
   */
  datatype Net = Net(
    nodes: map<Shard, Node>,
    sent: set<Message>,
    signed: set<Signature>,
    orders: map<TxId, Transfer>,
    debited: set<TxId>,
    credited: set<TxId>)

  datatype Action =
    | Submit(tx: TxId, transfer: Transfer)
    | DeliverCredit(to: Shard, m: Message)
    | DeliverAck(to: Shard, m: Message)
    | Sign(tx: TxId, shard: Shard, id: Id)              // some committee peer signs and gossips
    | SelfSign(at: Shard, tx: TxId, shard: Shard, id: Id)
    | Retry(at: Shard)

  ghost predicate Enabled(net: Net, a: Action) {
    match a
    case Submit(tx, t) =>
      t.origin in net.nodes && t.origin != t.target && tx != "" && t.status == Pending
      && (tx in net.orders ==> net.orders[tx] == t)     // an identifier names one transfer, submitted any number of times
    case DeliverCredit(s, m) => s in net.nodes && m in net.sent && m.Credit?
    case DeliverAck(s, m) => s in net.nodes && m in net.sent && m.Ack?
    case Sign(_, _, _) => true
    case SelfSign(s, _, _, _) => s in net.nodes
    case Retry(s) => s in net.nodes
  }

  ghost function Apply(net: Net, s: Shard, o: Outcome): Net {
    net.(nodes := net.nodes[s := o.node],
         sent := net.sent + (set m | m in o.sent),
         signed := net.signed + o.signed,
         debited := net.debited + if o.move.Debit? then {o.move.tx} else {},
         credited := net.credited + if o.move.CreditTo? then {o.move.tx} else {})
  }

  ghost function Next(net: Net, a: Action): Net
    requires Enabled(net, a) && Setup(net)
  {
    match a
    case Submit(tx, t) => Apply(net.(orders := net.orders[tx := t]), t.origin, Submitted(net.nodes[t.origin], tx, t))
    case DeliverCredit(s, m) => Apply(net, s, Credited(net.nodes[s], m).0)
    case DeliverAck(s, m) => Apply(net, s, AckReceived(net.nodes[s], m).0)
    case Sign(tx, sh, id) => net.(sent := net.sent + {Ack(tx, sh, id)}, signed := net.signed + {(tx, sh, id)})
    case SelfSign(s, tx, sh, id) => Apply(net, s, ValidatorSigned(net.nodes[s], tx, sh, id))
    case Retry(s) => net.(sent := net.sent + set m | m in Regossip(net.nodes[s], net.nodes[s].pending))
  }

  /** One node per shard, all with the committees loaded beforehand and a legal quorum fraction. */
  ghost predicate Setup(net: Net) {
    forall s | s in net.nodes :: net.nodes[s].shard == s && BooksOk(net.nodes[s])
  }

  ghost predicate Initial(net: Net) {
    && Setup(net)
    && net.sent == {} && net.signed == {} && net.orders == map[] && net.debited == {} && net.credited == {}
    && (forall s | s in net.nodes ::
          && net.nodes[s].transfers == map[] && net.nodes[s].pending == []
          && net.nodes[s].books.required == map[] && net.nodes[s].books.validatorAcks == map[])
  }

  ghost predicate SameCommittees(n: Node, o: Node) {
    n.books.committees == o.books.committees && n.books.fraction == o.books.fraction
  }

  // ---------------------------------------------------------------- money

  ghost function BalanceFn(b: Balances): Address -> nat { (a: Address) => Balance(b, a) }

  ghost function Held(b: Balances): nat { Sum(b.Keys, BalanceFn(b)) }

  ghost function HeldFn(nodes: map<Shard, Node>): Shard -> nat { (s: Shard) => if s in nodes then Held(nodes[s].balances) else 0 }

  ghost function AmountFn(orders: map<TxId, Transfer>): TxId -> nat {
    (tx: TxId) => if tx in orders && orders[tx].amount > 0 then orders[tx].amount else 0
  }

  /** Debited on the origin shard and not yet credited on the target shard. */
  ghost function InFlight(net: Net): nat { Sum(net.debited - net.credited, AmountFn(net.orders)) }

  ghost function Supply(net: Net): nat { Sum(net.nodes.Keys, HeldFn(net.nodes)) + InFlight(net) }

  lemma HeldUpdate(b: Balances, a: Address, v: nat)
    ensures Held(b[a := v]) + Balance(b, a) == Held(b) + v
  {
    var b' := b[a := v];
    var rest := b.Keys - {a};
    SumCong(rest, BalanceFn(b), BalanceFn(b'));
    SumRemove(b'.Keys, BalanceFn(b'), a);
    assert b'.Keys - {a} == rest;
    if a in b { SumRemove(b.Keys, BalanceFn(b), a); } else { assert rest == b.Keys; }
  }

  lemma NodesUpdate(nodes: map<Shard, Node>, s: Shard, n: Node)
    requires s in nodes
    ensures Sum(nodes[s := n].Keys, HeldFn(nodes[s := n])) + Held(nodes[s].balances)
         == Sum(nodes.Keys, HeldFn(nodes)) + Held(n.balances)
  {
    var nodes' := nodes[s := n];
    assert nodes'.Keys == nodes.Keys;
    SumRemove(nodes.Keys, HeldFn(nodes), s);
    SumRemove(nodes.Keys, HeldFn(nodes'), s);
    SumCong(nodes.Keys - {s}, HeldFn(nodes), HeldFn(nodes'));
  }

  // ---------------------------------------------------------------- the protocol invariant

  /** The record says what was ordered; only its status is the node's own. */
  ghost predicate Fits(t: Transfer, order: Transfer) { t == order.(status := t.status) }

  /** A node knows a transfer only as its origin, or as its target once it has paid out. */
  ghost predicate KnownRightly(net: Net, s: Shard, tx: TxId)
    requires s in net.nodes && tx in net.nodes[s].transfers
  {
    var t := net.nodes[s].transfers[tx];
    && tx in net.orders && Fits(t, net.orders[tx])
    && (s == t.origin || s == t.target)
    && (s == t.target ==> t.status == Confirmed && tx in net.credited)
    && (t.status == Debited ==> tx in net.debited)
  }

  ghost predicate MoneyOk(net: Net) {
    && (forall tx | tx in net.orders :: net.orders[tx].origin != net.orders[tx].target)
    && (forall s, tx | s in net.nodes && tx in net.nodes[s].transfers :: KnownRightly(net, s, tx))
    && (forall tx | tx in net.debited :: tx in net.orders && net.orders[tx].amount > 0 && net.orders[tx].recipient != "")
    && (forall tx | tx in net.credited :: tx in net.debited
          && net.orders[tx].target in net.nodes && tx in net.nodes[net.orders[tx].target].transfers)
    && (forall m | m in net.sent && m.Credit? :: m.tx in net.debited && m == Payload(m.tx, net.orders[m.tx]))
  }

  // ---------------------------------------------------------------- what each call does to a node

  /** Only acknowledgement books and gossip filters changed; nothing but acks was gossiped. */
  ghost predicate Quiet(n: Node, o: Outcome) {
    && o.node.shard == n.shard && o.node.balances == n.balances && o.node.transfers == n.transfers
    && SameCommittees(o.node, n)
    && (forall m | m in o.sent :: m.Ack?) && o.move == NoMove
  }

  lemma GossipOwnQuiet(n: Node, tx: TxId, s: Shard, id: Id)
    ensures Quiet(n, GossipOwn(n, tx, s, id)) && Quiet(n, Relay(n, tx, s, id))
  {
  }

  lemma ShardAckedQuiet(n: Node, tx: TxId, s: Shard)
    requires BooksOk(n)
    ensures Quiet(n, ShardAcked(n, tx, s))
  {
    hide QuorumSize, GossipOwn;
    SameSetup(n.books, tx, tx, s, n.id, s, s);
    GossipOwnQuiet(n.(books := n.books.ValidatorAck(tx, s, n.id)), tx, s, n.id);
  }

  lemma ValidatorSignedQuiet(n: Node, tx: TxId, s: Shard, id: Id)
    requires BooksOk(n)
    ensures Quiet(n, ValidatorSigned(n, tx, s, id))
  {
    hide QuorumSize, GossipOwn;
    SameSetup(n.books, tx, tx, s, id, s, s);
    GossipOwnQuiet(n.(books := n.books.ValidatorAck(tx, s, id)), tx, s, id);
  }

  lemma AckRecordedQuiet(n: Node, m: Message, ownsOrigin: bool)
    requires BooksOk(n) && m.Ack?
    ensures Quiet(n, AckRecorded(n, m, ownsOrigin))
  {
    hide QuorumSize, ShardAcked;
    SameSetup(n.books, m.tx, m.tx, m.shard, m.id, m.shard, m.shard);
    ShardAckedQuiet(n, m.tx, m.shard);
  }

  lemma SubmittedEffect(n: Node, tx: TxId, t: Transfer)
    requires BooksOk(n)
    ensures var o := Submitted(n, tx, t);
            && o.node.shard == n.shard && SameCommittees(o.node, n)
            && (forall m | m in o.sent :: m.Ack? || (CanDebit(n, t) && m == Payload(tx, t)))
            && (if CanDebit(n, t) then
                  && o.move == Debit(tx, t.amount) && o.node.transfers == n.transfers[tx := t.(status := Debited)]
                  && o.node.balances == n.balances[t.sender := Balance(n.balances, t.sender) - t.amount]
                else o.move == NoMove && o.node.transfers == n.transfers[tx := t.(status := Failed)] && o.node.balances == n.balances)
  {
    hide QuorumSize, ShardAcked;
    if CanDebit(n, t) {
      ShardAckedQuiet(Paid(n, tx, t), tx, t.origin);
    }
  }

  /** Does this node pay out on this message? */
  ghost predicate Pays(n: Node, m: Message)
    requires m.Credit?
  {
    m.target == n.shard && m.tx != "" && m.amount > 0 && m.recipient != ""
    && !(m.tx in n.transfers && n.transfers[m.tx].status == Confirmed)
  }

  ghost function PaidTransfer(n: Node, m: Message): Transfer
    requires m.Credit?
  {
    if m.tx in n.transfers then n.transfers[m.tx].(amount := m.amount, status := Confirmed)
    else Transfer(m.origin, m.target, m.sender, m.recipient, m.amount, Confirmed)
  }

  lemma CreditedEffect(n: Node, m: Message)
    requires BooksOk(n) && m.Credit?
    ensures var o := Credited(n, m).0;
            && o.node.shard == n.shard && SameCommittees(o.node, n) && (forall x | x in o.sent :: x.Ack?)
            && (if Pays(n, m) then
                  && o.move == CreditTo(m.tx, m.amount) && o.node.transfers == n.transfers[m.tx := PaidTransfer(n, m)]
                  && o.node.balances == n.balances[m.recipient := Balance(n.balances, m.recipient) + m.amount]
                else o.node == n && o.sent == [] && o.signed == {} && o.move == NoMove)
  {
    hide QuorumSize, ShardAcked;
    if Pays(n, m) {
      var paid := n.(balances := n.balances[m.recipient := Balance(n.balances, m.recipient) + m.amount],
                     transfers := n.transfers[m.tx := PaidTransfer(n, m)], pending := Without(n.pending, m.tx));
      ShardAckedQuiet(paid, m.tx, m.target);
    }
  }

  lemma AckReceivedEffect(n: Node, m: Message)
    requires BooksOk(n) && m.Ack?
    ensures var o := AckReceived(n, m).0;
            && o.node.shard == n.shard && SameCommittees(o.node, n) && (forall x | x in o.sent :: x.Ack?)
            && o.move == NoMove && o.node.balances == n.balances
            && (o.node.transfers == n.transfers ||
                (m.tx in n.transfers && n.transfers[m.tx].origin == n.shard
                 && o.node.transfers == n.transfers[m.tx := n.transfers[m.tx].(status := Confirmed)]))
  {
    hide QuorumSize, ShardAcked, AckRecorded;
    AckRecordedQuiet(n, m, m.tx in n.transfers && n.transfers[m.tx].origin == n.shard);
  }

  lemma RegossipEffect(n: Node, todo: seq<TxId>)
    ensures forall m | m in Regossip(n, todo) ::
              m.Credit? && m.tx in n.transfers && n.transfers[m.tx].status == Debited && m == Payload(m.tx, n.transfers[m.tx])
  {
    RegossipExactly(n, todo);
  }

  // ---------------------------------------------------------------- every step keeps the money right

  lemma SubmitKeepsRecords(net: Net, tx: TxId, t: Transfer)
    requires Setup(net) && MoneyOk(net) && Enabled(net, Submit(tx, t))
    ensures var net' := Next(net, Submit(tx, t));
            forall s, k | s in net'.nodes && k in net'.nodes[s].transfers :: KnownRightly(net', s, k)
  {
    hide QuorumSize, ShardAcked, Submitted, Sum, Held;
    var net' := Next(net, Submit(tx, t));
    SubmittedEffect(net.nodes[t.origin], tx, t);
    forall s, k | s in net'.nodes && k in net'.nodes[s].transfers ensures KnownRightly(net', s, k) {
      if !(s == t.origin && k == tx) {
        assert k in net.nodes[s].transfers && KnownRightly(net, s, k);
      }
    }
  }

  lemma SubmitKeepsMoney(net: Net, tx: TxId, t: Transfer)
    requires Setup(net) && MoneyOk(net) && Enabled(net, Submit(tx, t))
    ensures Setup(Next(net, Submit(tx, t))) && MoneyOk(Next(net, Submit(tx, t)))
  {
    hide QuorumSize, ShardAcked, Submitted, Sum, Held, KnownRightly;
    SubmittedEffect(net.nodes[t.origin], tx, t);
    SubmitKeepsRecords(net, tx, t);
  }

  /** An order adds its amount to what is in flight the first time it is debited. */
  lemma InFlightDebit(debited: set<TxId>, credited: set<TxId>, orders: map<TxId, Transfer>, tx: TxId, t: Transfer)
    requires (tx in orders ==> orders[tx] == t) && credited <= debited && (forall k | k in debited :: k in orders)
    ensures Sum(debited - credited, AmountFn(orders[tx := t])) == Sum(debited - credited, AmountFn(orders))
    ensures Sum(debited + {tx} - credited, AmountFn(orders[tx := t]))
         == Sum(debited - credited, AmountFn(orders)) + if tx !in debited && t.amount > 0 then t.amount else 0
  {
    var (f, g) := (AmountFn(orders), AmountFn(orders[tx := t]));
    SumCong(debited - credited, f, g);
    if tx in debited {
      assert debited + {tx} - credited == debited - credited;
    } else {
      SumRemove(debited + {tx} - credited, g, tx);
      assert debited + {tx} - credited - {tx} == debited - credited;
    }
  }

  lemma InFlightCredit(debited: set<TxId>, credited: set<TxId>, orders: map<TxId, Transfer>, tx: TxId)
    requires tx in orders && tx in debited && tx !in credited && orders[tx].amount > 0
    ensures Sum(debited - (credited + {tx}), AmountFn(orders)) + orders[tx].amount == Sum(debited - credited, AmountFn(orders))
  {
    SumRemove(debited - credited, AmountFn(orders), tx);
    assert debited - credited - {tx} == debited - (credited + {tx});
  }

  /** The submission debits a transfer that was debited before. */
  ghost predicate DebitsAgain(net: Net, a: Action)
    requires Enabled(net, a)
  {
    a.Submit? && a.tx in net.debited && CanDebit(net.nodes[a.transfer.origin], a.transfer)
  }

  /** What a submission loses: nothing, or the whole amount when the transfer was debited before. */
  lemma SubmitSupply(net: Net, tx: TxId, t: Transfer)
    requires Setup(net) && MoneyOk(net) && Enabled(net, Submit(tx, t))
    ensures Supply(Next(net, Submit(tx, t))) == Supply(net) - if DebitsAgain(net, Submit(tx, t)) then t.amount else 0
  {
    hide QuorumSize, ShardAcked, Submitted, Held, AmountFn, HeldFn, Sum;
    var net' := Next(net, Submit(tx, t));
    var (n, o) := (net.nodes[t.origin], Submitted(net.nodes[t.origin], tx, t));
    SubmittedEffect(n, tx, t);
    NodesUpdate(net.nodes, t.origin, o.node);
    InFlightDebit(net.debited, net.credited, net.orders, tx, t);
    if CanDebit(n, t) {
      HeldUpdate(n.balances, t.sender, Balance(n.balances, t.sender) - t.amount);
      assert net'.debited == net.debited + {tx} && net'.credited == net.credited;
    } else {
      assert net'.debited == net.debited && net'.credited == net.credited;
    }
  }

  /**
   * Submitting a transfer again conserves the supply exactly when it was never debited or the sender
   * cannot cover it; otherwise the whole amount is lost, whatever the target has done.
   */
  lemma ResubmissionConservesIff(net: Net, tx: TxId, t: Transfer)
    requires Setup(net) && MoneyOk(net) && Enabled(net, Submit(tx, t)) && tx in net.orders
    ensures Supply(Next(net, Submit(tx, t))) == Supply(net) <==> tx !in net.debited || !CanDebit(net.nodes[t.origin], t)
    ensures tx in net.debited && CanDebit(net.nodes[t.origin], t) ==>
              Supply(Next(net, Submit(tx, t))) == Supply(net) - t.amount
  {
    hide Supply, Next, Submitted;
    SubmitSupply(net, tx, t);
  }

  /** A node that pays out on a delivered message does so for a debited transfer not yet credited. */
  lemma PaysOnlyOnce(net: Net, s: Shard, m: Message)
    requires Setup(net) && MoneyOk(net) && Enabled(net, DeliverCredit(s, m)) && Pays(net.nodes[s], m)
    ensures m.tx in net.debited && m.tx !in net.credited && m.tx !in net.nodes[s].transfers
  {
  }

  lemma CreditKeepsMoney(net: Net, s: Shard, m: Message)
    requires Setup(net) && MoneyOk(net) && Enabled(net, DeliverCredit(s, m))
    ensures Setup(Next(net, DeliverCredit(s, m))) && MoneyOk(Next(net, DeliverCredit(s, m)))
  {
    hide QuorumSize, ShardAcked, Credited;
    var net' := Next(net, DeliverCredit(s, m));
    CreditedEffect(net.nodes[s], m);
    if Pays(net.nodes[s], m) {
      PaysOnlyOnce(net, s, m);
      forall u, k | u in net'.nodes && k in net'.nodes[u].transfers ensures KnownRightly(net', u, k) {
        if !(u == s && k == m.tx) {
          assert k in net.nodes[u].transfers && KnownRightly(net, u, k);
        }
      }
    } else {
      assert net'.nodes == net.nodes;
    }
  }

  lemma CreditKeepsSupply(net: Net, s: Shard, m: Message)
    requires Setup(net) && MoneyOk(net) && Enabled(net, DeliverCredit(s, m))
    ensures Supply(Next(net, DeliverCredit(s, m))) == Supply(net)
  {
    hide QuorumSize, ShardAcked, Credited, Held, AmountFn, HeldFn, Sum;
    var net' := Next(net, DeliverCredit(s, m));
    var (n, o) := (net.nodes[s], Credited(net.nodes[s], m).0);
    CreditedEffect(n, m);
    NodesUpdate(net.nodes, s, o.node);
    if Pays(n, m) {
      PaysOnlyOnce(net, s, m);
      HeldUpdate(n.balances, m.recipient, Balance(n.balances, m.recipient) + m.amount);
      InFlightCredit(net.debited, net.credited, net.orders, m.tx);
      assert net'.debited == net.debited && net'.credited == net.credited + {m.tx};
    } else {
      assert net'.debited == net.debited && net'.credited == net.credited;
    }
  }

  lemma AckKeeps(net: Net, s: Shard, m: Message)
    requires Setup(net) && MoneyOk(net) && Enabled(net, DeliverAck(s, m))
    ensures Setup(Next(net, DeliverAck(s, m))) && MoneyOk(Next(net, DeliverAck(s, m)))
    ensures Supply(Next(net, DeliverAck(s, m))) == Supply(net)
  {
    hide QuorumSize, ShardAcked, AckReceived;
    var net' := Next(net, DeliverAck(s, m));
    AckReceivedEffect(net.nodes[s], m);
    SameMoney(net, net', s);
  }

  /** A step that moves no money and touches transfers only by confirming them at their origin. */
  lemma SameMoney(net: Net, net': Net, s: Shard)
    requires Setup(net) && MoneyOk(net) && s in net.nodes
    requires net'.nodes.Keys == net.nodes.Keys && (forall u | u in net.nodes && u != s :: net'.nodes[u] == net.nodes[u])
    requires net'.orders == net.orders && net'.debited == net.debited && net'.credited == net.credited
    requires forall x | x in net'.sent && x.Credit? :: x in net.sent
    requires var (n, n') := (net.nodes[s], net'.nodes[s]);
             && n'.shard == n.shard && BooksOk(n') && n'.balances == n.balances
             && (n'.transfers == n.transfers ||
                 exists tx :: tx in n.transfers && n.transfers[tx].origin == s
                              && n'.transfers == n.transfers[tx := n.transfers[tx].(status := Confirmed)])
    ensures Setup(net') && MoneyOk(net') && Supply(net') == Supply(net)
  {
    SameRecords(net, net', s);
    SameSupply(net, net', s);
  }

  /** The record of one transfer, unchanged or newly confirmed, is as right as it was. */
  lemma SameRecords(net: Net, net': Net, s: Shard)
    requires Setup(net) && MoneyOk(net) && s in net.nodes
    requires net'.nodes.Keys == net.nodes.Keys && (forall u | u in net.nodes && u != s :: net'.nodes[u] == net.nodes[u])
    requires net'.orders == net.orders && net'.debited == net.debited && net'.credited == net.credited
    requires forall x | x in net'.sent && x.Credit? :: x in net.sent
    requires var (n, n') := (net.nodes[s], net'.nodes[s]);
             && n'.shard == n.shard && BooksOk(n') && n'.balances == n.balances
             && (n'.transfers == n.transfers ||
                 exists tx :: tx in n.transfers && n.transfers[tx].origin == s
                              && n'.transfers == n.transfers[tx := n.transfers[tx].(status := Confirmed)])
    ensures Setup(net') && MoneyOk(net')
  {
    hide QuorumSize;
    forall u, k | u in net'.nodes && k in net'.nodes[u].transfers ensures KnownRightly(net', u, k) {
      assert k in net.nodes[u].transfers && KnownRightly(net, u, k);
    }
  }

  lemma SameSupply(net: Net, net': Net, s: Shard)
    requires Setup(net) && s in net.nodes && net'.nodes.Keys == net.nodes.Keys
    requires forall u | u in net.nodes && u != s :: net'.nodes[u] == net.nodes[u]
    requires net'.orders == net.orders && net'.debited == net.debited && net'.credited == net.credited
    requires net'.nodes[s].balances == net.nodes[s].balances
    ensures Supply(net') == Supply(net)
  {
    hide QuorumSize, Held, Sum;
    NodesUpdate(net.nodes, s, net'.nodes[s]);
    assert net'.nodes == net.nodes[s := net'.nodes[s]];
  }

  lemma RestKeeps(net: Net, a: Action)
    requires Setup(net) && MoneyOk(net) && Enabled(net, a) && (a.Sign? || a.SelfSign? || a.Retry?)
    ensures Setup(Next(net, a)) && MoneyOk(Next(net, a)) && Supply(Next(net, a)) == Supply(net)
  {
    hide QuorumSize, ValidatorSigned;
    match a {
      case Sign(tx, sh, id) =>
      case SelfSign(s, tx, sh, id) =>
        ValidatorSignedQuiet(net.nodes[s], tx, sh, id);
        SameMoney(net, Next(net, a), s);
      case Retry(s) =>
        var n := net.nodes[s];
        RegossipEffect(n, n.pending);
        forall m | m in Regossip(n, n.pending)
          ensures m.tx in net.debited && m == Payload(m.tx, net.orders[m.tx])
        {
          assert KnownRightly(net, s, m.tx);
        }
    }
  }

  // ---------------------------------------------------------------- whole runs

  ghost predicate StepAt(nets: seq<Net>, actions: seq<Action>, i: int) {
    0 <= i < |actions| && i + 1 < |nets| && Setup(nets[i]) && Enabled(nets[i], actions[i]) && nets[i + 1] == Next(nets[i], actions[i])
  }

  ghost predicate Run(nets: seq<Net>, actions: seq<Action>) {
    |nets| == |actions| + 1 && Initial(nets[0]) && forall i | 0 <= i < |actions| :: StepAt(nets, actions, i)
  }

  lemma NextKeepsMoney(net: Net, a: Action)
    requires Setup(net) && MoneyOk(net) && Enabled(net, a)
    ensures Setup(Next(net, a)) && MoneyOk(Next(net, a))
    ensures Supply(Next(net, a)) == Supply(net) - if DebitsAgain(net, a) then a.transfer.amount else 0
  {
    hide QuorumSize, Next;
    match a {
      case Submit(tx, t) => SubmitKeepsMoney(net, tx, t); SubmitSupply(net, tx, t);
      case DeliverCredit(s, m) => CreditKeepsMoney(net, s, m); CreditKeepsSupply(net, s, m);
      case DeliverAck(s, m) => AckKeeps(net, s, m);
      case Sign(_, _, _) => RestKeeps(net, a);
      case SelfSign(_, _, _, _) => RestKeeps(net, a);
      case Retry(_) => RestKeeps(net, a);
    }
  }

  lemma {:induction false} RunKeepsMoney(nets: seq<Net>, actions: seq<Action>, i: nat)
    requires Run(nets, actions) && i < |nets|
    ensures Setup(nets[i]) && MoneyOk(nets[i])
  {
    hide QuorumSize, Next;
    if i > 0 {
      RunKeepsMoney(nets, actions, i - 1);
      assert StepAt(nets, actions, i - 1);
      NextKeepsMoney(nets[i - 1], actions[i - 1]);
    }
  }

  /** Step `i` debits a transfer that was debited before. */
  ghost predicate DebitsAgainAt(nets: seq<Net>, actions: seq<Action>, i: int) {
    0 <= i < |actions| && i < |nets| && Enabled(nets[i], actions[i]) && DebitsAgain(nets[i], actions[i])
  }

  /** The amounts debited again before moment `i`. */
  ghost function Lost(nets: seq<Net>, actions: seq<Action>, i: nat): int {
    if i == 0 then 0
    else Lost(nets, actions, i - 1) + if DebitsAgainAt(nets, actions, i - 1) then actions[i - 1].transfer.amount else 0
  }

  /** In every reachable state, balances plus what is in flight plus what was debited again is the initial supply. */
  lemma {:induction false} SupplyAccounted(nets: seq<Net>, actions: seq<Action>, i: nat)
    requires Run(nets, actions) && i < |nets|
    ensures Supply(nets[i]) + Lost(nets, actions, i) == Sum(nets[0].nodes.Keys, HeldFn(nets[0].nodes))
  {
    hide QuorumSize, Next, Held, HeldFn;
    if i == 0 {
      assert nets[0].debited - nets[0].credited == {};
    } else {
      SupplyAccounted(nets, actions, i - 1);
      RunKeepsMoney(nets, actions, i - 1);
      assert StepAt(nets, actions, i - 1);
      NextKeepsMoney(nets[i - 1], actions[i - 1]);
    }
  }

  lemma {:induction false} LostGrows(nets: seq<Net>, actions: seq<Action>, i: nat, k: nat)
    requires Run(nets, actions) && i <= k < |nets|
    ensures 0 <= Lost(nets, actions, i) <= Lost(nets, actions, k)
    ensures i < k && DebitsAgainAt(nets, actions, i) ==> Lost(nets, actions, k) > 0
    decreases k
  {
    if k > 0 {
      if i < k { LostGrows(nets, actions, i, k - 1); } else { LostGrows(nets, actions, k - 1, k - 1); }
    }
  }

  /**
   * Conservation. However gossip is dropped, duplicated and reordered, and however often transfers are
   * submitted again, in every reachable state the balances of all nodes plus everything debited but not
   * yet credited add up to the initial supply exactly when no step so far debited a transfer twice.
   */
  lemma SupplyConserved(nets: seq<Net>, actions: seq<Action>, i: nat)
    requires Run(nets, actions) && i < |nets|
    ensures Supply(nets[i]) == Sum(nets[0].nodes.Keys, HeldFn(nets[0].nodes)) <==> forall k | 0 <= k < i :: !DebitsAgainAt(nets, actions, k)
  {
    hide Supply, Held, HeldFn, Sum, Next, DebitsAgainAt;
    SupplyAccounted(nets, actions, i);
    if forall k | 0 <= k < i :: !DebitsAgainAt(nets, actions, k) {
      NothingLost(nets, actions, i);
    } else {
      var k :| 0 <= k < i && DebitsAgainAt(nets, actions, k);
      LostGrows(nets, actions, k, i);
    }
  }

  lemma {:induction false} NothingLost(nets: seq<Net>, actions: seq<Action>, i: nat)
    requires forall k | 0 <= k < i :: !DebitsAgainAt(nets, actions, k)
    ensures Lost(nets, actions, i) == 0
  {
    if i > 0 { NothingLost(nets, actions, i - 1); }
  }

  /** Step `i` pays out transfer `tx`. */
  ghost predicate PaysAt(nets: seq<Net>, actions: seq<Action>, i: int, tx: TxId) {
    && 0 <= i < |actions| && i < |nets| && actions[i].DeliverCredit? && actions[i].m.Credit? && actions[i].m.tx == tx
    && actions[i].to in nets[i].nodes && Pays(nets[i].nodes[actions[i].to], actions[i].m)
  }

  lemma {:induction false} CreditedStays(nets: seq<Net>, actions: seq<Action>, i: nat, k: nat, tx: TxId)
    requires Run(nets, actions) && i <= k < |nets| && tx in nets[i].credited
    ensures tx in nets[k].credited
    decreases k - i
  {
    hide QuorumSize, Submitted, Credited, AckReceived, ValidatorSigned;
    if i < k {
      CreditedStays(nets, actions, i, k - 1, tx);
      assert StepAt(nets, actions, k - 1);
    }
  }

  lemma PaysRightly(nets: seq<Net>, actions: seq<Action>, i: nat, tx: TxId)
    requires Run(nets, actions) && PaysAt(nets, actions, i, tx)
    ensures i + 1 < |nets| && tx in nets[i].debited && tx !in nets[i].credited && tx in nets[i + 1].credited
    ensures tx in nets[i].orders && actions[i].m == Payload(tx, nets[i].orders[tx]) && actions[i].to == nets[i].orders[tx].target
  {
    hide QuorumSize, Credited;
    RunKeepsMoney(nets, actions, i);
    assert StepAt(nets, actions, i);
    PaysOnlyOnce(nets[i], actions[i].to, actions[i].m);
    CreditedEffect(nets[i].nodes[actions[i].to], actions[i].m);
  }

  /** No transfer is credited twice, and none that was not debited. */
  lemma CreditedOnce(nets: seq<Net>, actions: seq<Action>, i: nat, k: nat, tx: TxId)
    requires Run(nets, actions) && PaysAt(nets, actions, i, tx) && PaysAt(nets, actions, k, tx)
    ensures i == k && tx in nets[i].debited
  {
    hide QuorumSize, Next, PaysAt;
    PaysRightly(nets, actions, i, tx);
    PaysRightly(nets, actions, k, tx);
    if i < k { CreditedStays(nets, actions, i + 1, k, tx); }
    if k < i { CreditedStays(nets, actions, k + 1, i, tx); }
  }

  // ---------------------------------------------------------------- two-shard commit

  /** Every recorded signer really signed, and belongs to the shard's committee when there is one. */
  ghost predicate SignersWithin(b: Books, sigs: set<Signature>) {
    forall tx, s, id | id in b.Signers(tx, s) :: (tx, s, id) in sigs && (b.Committee(s) != {} ==> id in b.Committee(s))
  }

  /** A quorum of the shard's committee has signed the transfer. */
  ghost predicate QuorumSigned(b: Books, sigs: set<Signature>, tx: TxId, s: Shard)
    requires 0.5 <= b.fraction <= 1.0
  {
    |set id | id in b.Committee(s) && (tx, s, id) in sigs| >= QuorumSize(|b.Committee(s)|, b.fraction)
  }

  lemma ValidatorAckWithin(b: Books, sigs: set<Signature>, tx: TxId, s: Shard, id: Id)
    requires 0.5 <= b.fraction <= 1.0 && SignersWithin(b, sigs)
    ensures SignersWithin(b.ValidatorAck(tx, s, id), sigs + {(tx, s, id)})
    ensures b.ValidatorAck(tx, s, id).required == b.required
  {
    hide QuorumSize, Books.WithSigner;
    var b' := b.ValidatorAck(tx, s, id);
    SameSetup(b, tx, tx, s, id, s, s);
    forall k, u, x | x in b'.Signers(k, u)
      ensures (k, u, x) in sigs + {(tx, s, id)} && (b'.Committee(u) != {} ==> x in b'.Committee(u))
    {
      assert b'.Committee(u) == b.Committee(u);
      if x !in b.Signers(k, u) { ValidatorAckAdds(b, tx, s, id, k, u, x); }
    }
    SameRequired(b, tx, s, id);
  }

  lemma SameRequired(b: Books, tx: TxId, s: Shard, id: Id)
    requires 0.5 <= b.fraction <= 1.0
    ensures b.ValidatorAck(tx, s, id).required == b.required
  {
  }

  lemma OthersWithin(b: Books, sigs: set<Signature>, more: set<Signature>, tx: TxId, s: Shard, u: Shard)
    requires SignersWithin(b, sigs)
    ensures SignersWithin(b, sigs + more) && SignersWithin(b.ShardAck(tx, s), sigs + more)
    ensures SignersWithin(b.Begin(tx, s, u), sigs + more) && SignersWithin(b.Clear(tx), sigs + more)
  {
    forall k, x, id
      ensures id in b.ShardAck(tx, s).Signers(k, x) ==> id in b.Signers(k, x)
      ensures id in b.Begin(tx, s, u).Signers(k, x) ==> id in b.Signers(k, x)
      ensures id in b.Clear(tx).Signers(k, x) ==> id in b.Signers(k, x)
    {
    }
  }

  /** A reached quorum means that each required shard with a committee has a quorum of signatures. */
  lemma ReachedIsSigned(b: Books, sigs: set<Signature>, tx: TxId, s: Shard)
    requires 0.5 <= b.fraction <= 1.0 && SignersWithin(b, sigs) && b.Reached(tx) && s in b.required[tx] && b.Committee(s) != {}
    ensures QuorumSigned(b, sigs, tx, s)
  {
    hide QuorumSize;
    assert b.ShardMet(tx, s);
    var signed := set id | id in b.Committee(s) && (tx, s, id) in sigs;
    assert b.Signers(tx, s) <= signed;
    assert signed == b.Signers(tx, s) + (signed - b.Signers(tx, s));
  }

  /** The signature books of one node are right about the signatures in the world. */
  ghost predicate BooksTold(n: Node, sigs: set<Signature>, orders: map<TxId, Transfer>) {
    && SignersWithin(n.books, sigs)
    && (forall tx | tx in n.books.required :: tx in orders && n.books.required[tx] == {orders[tx].origin, orders[tx].target})
  }

  /** A transfer confirmed at its origin has a quorum of signatures from both shards. */
  ghost predicate ConfirmedSigned(n: Node, sigs: set<Signature>)
    requires BooksOk(n)
  {
    forall tx, s | tx in n.transfers && n.transfers[tx].origin == n.shard && n.transfers[tx].status == Confirmed
                   && (s == n.transfers[tx].origin || s == n.transfers[tx].target) && n.books.Committee(s) != {} ::
      QuorumSigned(n.books, sigs, tx, s)
  }

  ghost predicate SignaturesOk(net: Net)
    requires Setup(net)
  {
    && (forall m | m in net.sent && m.Ack? && m.id != "" :: (m.tx, m.shard, m.id) in net.signed)
    && (forall s | s in net.nodes :: BooksTold(net.nodes[s], net.signed, net.orders))
    && (forall s | s in net.nodes :: ConfirmedSigned(net.nodes[s], net.signed))
  }

  /** A call gossips no acknowledgement it did not sign or was not given. */
  ghost predicate AcksFrom(o: Outcome, sigs: set<Signature>) {
    forall m | m in o.sent && m.Ack? && m.id != "" :: (m.tx, m.shard, m.id) in sigs
  }

  lemma ShardAckedTold(n: Node, tx: TxId, s: Shard, sigs: set<Signature>, orders: map<TxId, Transfer>)
    requires BooksOk(n) && BooksTold(n, sigs, orders)
    ensures var o := ShardAcked(n, tx, s);
            BooksTold(o.node, sigs + o.signed, orders) && AcksFrom(o, sigs + o.signed)
  {
    hide QuorumSize;
    ValidatorAckWithin(n.books, sigs, tx, s, n.id);
    OthersWithin(n.books, sigs, {}, tx, s, s);
  }

  lemma ValidatorSignedTold(n: Node, tx: TxId, s: Shard, id: Id, sigs: set<Signature>, orders: map<TxId, Transfer>)
    requires BooksOk(n) && BooksTold(n, sigs, orders)
    ensures var o := ValidatorSigned(n, tx, s, id);
            BooksTold(o.node, sigs + o.signed, orders) && AcksFrom(o, sigs + o.signed)
  {
    hide QuorumSize;
    ValidatorAckWithin(n.books, sigs, tx, s, id);
  }

  lemma AckRecordedTold(n: Node, m: Message, ownsOrigin: bool, sigs: set<Signature>, orders: map<TxId, Transfer>)
    requires BooksOk(n) && m.Ack? && BooksTold(n, sigs, orders) && (m.id != "" ==> (m.tx, m.shard, m.id) in sigs)
    ensures var o := AckRecorded(n, m, ownsOrigin);
            BooksTold(o.node, sigs + o.signed, orders) && AcksFrom(o, sigs + o.signed)
  {
    hide QuorumSize, ShardAcked;
    if m.id != "" {
      ValidatorAckWithin(n.books, sigs, m.tx, m.shard, m.id);
      assert sigs + {(m.tx, m.shard, m.id)} == sigs;
    } else {
      ShardAckedTold(n, m.tx, m.shard, sigs, orders);
    }
    OthersWithin(n.books, sigs, {}, m.tx, m.shard, m.shard);
  }

  lemma SubmittedTold(n: Node, tx: TxId, t: Transfer, sigs: set<Signature>, orders: map<TxId, Transfer>)
    requires BooksOk(n) && BooksTold(n, sigs, orders) && (tx in orders ==> orders[tx] == t)
    ensures var o := Submitted(n, tx, t);
            BooksTold(o.node, sigs + o.signed, orders[tx := t]) && AcksFrom(o, sigs + o.signed)
  {
    hide QuorumSize, ShardAcked;
    OthersWithin(n.books, sigs, {}, tx, t.origin, t.target);
    assert sigs + {} == sigs;
    if CanDebit(n, t) {
      var paid := Paid(n, tx, t);
      ShardAckedTold(paid, tx, t.origin, sigs, orders[tx := t]);
    }
  }

  lemma CreditedTold(n: Node, m: Message, sigs: set<Signature>, orders: map<TxId, Transfer>)
    requires BooksOk(n) && m.Credit? && BooksTold(n, sigs, orders)
    ensures var o := Credited(n, m).0;
            BooksTold(o.node, sigs + o.signed, orders) && AcksFrom(o, sigs + o.signed)
  {
    hide QuorumSize, ShardAcked;
    OthersWithin(n.books, sigs, {}, m.tx, m.target, m.target);
    assert sigs + {} == sigs;
    CreditedEffect(n, m);
    if Pays(n, m) {
      var paid := n.(balances := n.balances[m.recipient := Balance(n.balances, m.recipient) + m.amount],
                     transfers := n.transfers[m.tx := PaidTransfer(n, m)], pending := Without(n.pending, m.tx));
      ShardAckedTold(paid, m.tx, m.target, sigs, orders);
      var acked := ShardAcked(paid, m.tx, m.target);
      OthersWithin(acked.node.books, sigs + acked.signed, {}, m.tx, m.target, m.target);
      assert sigs + acked.signed + {} == sigs + acked.signed;
    }
  }

  /** The transfer named by the acknowledgement concerns this node. */
  ghost predicate Concerns(n: Node, m: Message)
    requires m.Ack?
  {
    m.tx != "" && m.tx in n.transfers && (n.transfers[m.tx].origin == n.shard || n.transfers[m.tx].target == n.shard)
  }

  lemma AckReceivedShape(n: Node, m: Message)
    requires BooksOk(n) && m.Ack?
    ensures var o := AckReceived(n, m).0;
            if !Concerns(n, m) then o == Outcome(n, [], {}, NoMove)
            else
              var r := AckRecorded(n, m, n.transfers[m.tx].origin == n.shard);
              && BooksOk(r.node) && o.sent == r.sent && o.signed == r.signed
              && o.node.books == (if n.transfers[m.tx].origin == n.shard && r.node.books.Reached(m.tx)
                                  then r.node.books.Clear(m.tx) else r.node.books)
              && (n.transfers[m.tx].origin == n.shard && r.node.books.Reached(m.tx) ==>
                    o.node.transfers == n.transfers[m.tx := n.transfers[m.tx].(status := Confirmed)])
              && (!(n.transfers[m.tx].origin == n.shard && r.node.books.Reached(m.tx)) ==> o.node.transfers == n.transfers)
  {
    hide QuorumSize, AckRecorded;
    if Concerns(n, m) { AckRecordedQuiet(n, m, n.transfers[m.tx].origin == n.shard); }
  }

  lemma AckReceivedTold(n: Node, m: Message, sigs: set<Signature>, orders: map<TxId, Transfer>)
    requires BooksOk(n) && m.Ack? && BooksTold(n, sigs, orders) && (m.id != "" ==> (m.tx, m.shard, m.id) in sigs)
    ensures var o := AckReceived(n, m).0;
            BooksTold(o.node, sigs + o.signed, orders) && AcksFrom(o, sigs + o.signed)
  {
    hide QuorumSize, AckReceived, AckRecorded;
    AckReceivedShape(n, m);
    if Concerns(n, m) {
      var r := AckRecorded(n, m, n.transfers[m.tx].origin == n.shard);
      AckRecordedTold(n, m, n.transfers[m.tx].origin == n.shard, sigs, orders);
      OthersWithin(r.node.books, sigs + r.signed, {}, m.tx, m.shard, m.shard);
      assert sigs + r.signed + {} == sigs + r.signed;
    } else {
      assert sigs + {} == sigs;
    }
  }

  lemma AckReceivedSigned(n: Node, m: Message, sigs: set<Signature>, orders: map<TxId, Transfer>)
    requires BooksOk(n) && m.Ack? && BooksTold(n, sigs, orders) && (m.id != "" ==> (m.tx, m.shard, m.id) in sigs)
    requires ConfirmedSigned(n, sigs)
    requires forall tx | tx in n.transfers :: tx in orders && Fits(n.transfers[tx], orders[tx])
    ensures var o := AckReceived(n, m).0;
            BooksOk(o.node) && ConfirmedSigned(o.node, sigs + o.signed)
  {
    hide QuorumSize, AckReceived, AckRecorded, QuorumSigned, Books.Reached;
    AckReceivedEffect(n, m);
    AckReceivedShape(n, m);
    var o := AckReceived(n, m).0;
    var all := sigs + o.signed;
    forall tx, s | tx in o.node.transfers && o.node.transfers[tx].origin == o.node.shard && o.node.transfers[tx].status == Confirmed
                   && (s == o.node.transfers[tx].origin || s == o.node.transfers[tx].target) && o.node.books.Committee(s) != {}
      ensures QuorumSigned(o.node.books, all, tx, s)
    {
      assert tx in n.transfers && o.node.books.Committee(s) == n.books.Committee(s);
      if n.transfers[tx].status == Confirmed {
        assert QuorumSigned(n.books, sigs, tx, s);
        MoreSigned(n.books, o.node.books, sigs, all, tx, s);
      } else {
        var r := AckRecorded(n, m, true);
        AckRecordedTold(n, m, true, sigs, orders);
        AckRecordedQuiet(n, m, true);
        ReachedRequires(r.node.books, tx);
        ReachedIsSigned(r.node.books, all, tx, s);
        MoreSigned(r.node.books, o.node.books, all, all, tx, s);
      }
    }
  }

  lemma ReachedRequires(b: Books, tx: TxId)
    requires 0.5 <= b.fraction <= 1.0 && b.Reached(tx)
    ensures tx in b.required
  {
  }

  lemma MoreSigned(b: Books, b': Books, sigs: set<Signature>, more: set<Signature>, tx: TxId, s: Shard)
    requires 0.5 <= b.fraction <= 1.0 && b'.fraction == b.fraction && b'.committees == b.committees
    requires sigs <= more && QuorumSigned(b, sigs, tx, s)
    ensures QuorumSigned(b', more, tx, s)
  {
    hide QuorumSize;
    var (p, q) := (set id | id in b.Committee(s) && (tx, s, id) in sigs, set id | id in b.Committee(s) && (tx, s, id) in more);
    assert b'.Committee(s) == b.Committee(s);
    assert q == p + (q - p);
  }

  /** Signatures are never withdrawn, so what was signed enough stays signed enough. */
  lemma MoreSignatures(n: Node, n': Node, sigs: set<Signature>, more: set<Signature>)
    requires BooksOk(n) && BooksOk(n') && SameCommittees(n', n) && n'.shard == n.shard && sigs <= more
    requires ConfirmedSigned(n, sigs)
    requires forall tx | tx in n'.transfers && n'.transfers[tx].origin == n.shard && n'.transfers[tx].status == Confirmed ::
               tx in n.transfers && n.transfers[tx].status == Confirmed
               && n.transfers[tx].origin == n'.transfers[tx].origin && n.transfers[tx].target == n'.transfers[tx].target
    ensures ConfirmedSigned(n', more)
  {
    hide QuorumSize;
    forall tx, s | tx in n'.transfers && n'.transfers[tx].origin == n'.shard && n'.transfers[tx].status == Confirmed
                   && (s == n'.transfers[tx].origin || s == n'.transfers[tx].target) && n'.books.Committee(s) != {}
      ensures QuorumSigned(n'.books, more, tx, s)
    {
      assert n'.books.Committee(s) == n.books.Committee(s) && QuorumSigned(n.books, sigs, tx, s);
      MoreSigned(n.books, n'.books, sigs, more, tx, s);
    }
  }

  lemma SubmitKeepsSignatures(net: Net, tx: TxId, t: Transfer)
    requires Setup(net) && MoneyOk(net) && SignaturesOk(net) && Enabled(net, Submit(tx, t)) && Setup(Next(net, Submit(tx, t)))
    ensures SignaturesOk(Next(net, Submit(tx, t)))
  {
    hide QuorumSize, Submitted, QuorumSigned, ConfirmedSigned, BooksTold;
    var net' := Next(net, Submit(tx, t));
    var (n, o) := (net.nodes[t.origin], Submitted(net.nodes[t.origin], tx, t));
    SubmittedEffect(n, tx, t);
    SubmittedTold(n, tx, t, net.signed, net.orders);
    MoreSignatures(n, o.node, net.signed, net'.signed);
    forall s | s in net.nodes && s != t.origin
      ensures BooksTold(net.nodes[s], net'.signed, net'.orders) && ConfirmedSigned(net.nodes[s], net'.signed)
    {
      StillTold(net.nodes[s], net.signed, net'.signed, net.orders, net'.orders);
    }
  }

  lemma StillTold(n: Node, sigs: set<Signature>, more: set<Signature>, orders: map<TxId, Transfer>, orders': map<TxId, Transfer>)
    requires BooksOk(n) && BooksTold(n, sigs, orders) && ConfirmedSigned(n, sigs) && sigs <= more
    requires forall tx | tx in orders :: tx in orders' && orders'[tx] == orders[tx]
    ensures BooksTold(n, more, orders') && ConfirmedSigned(n, more)
  {
    hide QuorumSize;
    MoreSignatures(n, n, sigs, more);
  }

  /** Any step at one node that reports its signatures truthfully keeps the signature books of the whole network right. */
  lemma OneNodeKeepsSignatures(net: Net, s: Shard, o: Outcome)
    requires Setup(net) && SignaturesOk(net) && s in net.nodes && Setup(Apply(net, s, o)) && BooksOk(o.node)
    requires BooksTold(o.node, net.signed + o.signed, net.orders) && AcksFrom(o, net.signed + o.signed)
    requires ConfirmedSigned(o.node, net.signed + o.signed)
    ensures SignaturesOk(Apply(net, s, o))
  {
    hide QuorumSize, QuorumSigned, ConfirmedSigned, BooksTold;
    var net' := Apply(net, s, o);
    forall u | u in net.nodes && u != s
      ensures BooksTold(net.nodes[u], net'.signed, net'.orders) && ConfirmedSigned(net.nodes[u], net'.signed)
    {
      StillTold(net.nodes[u], net.signed, net'.signed, net.orders, net'.orders);
    }
  }

  lemma CreditKeepsSignatures(net: Net, s: Shard, m: Message)
    requires Setup(net) && MoneyOk(net) && SignaturesOk(net) && Enabled(net, DeliverCredit(s, m))
    requires Setup(Next(net, DeliverCredit(s, m)))
    ensures SignaturesOk(Next(net, DeliverCredit(s, m)))
  {
    hide QuorumSize, QuorumSigned, Credited, SignersWithin;
    var n := net.nodes[s];
    var o := Credited(n, m).0;
    CreditedTold(n, m, net.signed, net.orders);
    CreditedEffect(n, m);
    if Pays(n, m) { PaidAtTarget(net, s, m); }
    MoreSignatures(n, o.node, net.signed, net.signed + o.signed);
    OneNodeKeepsSignatures(net, s, o);
  }

  lemma AckKeepsSignatures(net: Net, s: Shard, m: Message)
    requires Setup(net) && MoneyOk(net) && SignaturesOk(net) && Enabled(net, DeliverAck(s, m))
    requires Setup(Next(net, DeliverAck(s, m)))
    ensures SignaturesOk(Next(net, DeliverAck(s, m)))
  {
    hide QuorumSize, QuorumSigned, AckReceived, SignersWithin;
    var n := net.nodes[s];
    AckReceivedTold(n, m, net.signed, net.orders);
    KnownFit(net, s);
    AckReceivedSigned(n, m, net.signed, net.orders);
    OneNodeKeepsSignatures(net, s, AckReceived(n, m).0);
  }

  lemma RestKeepsSignatures(net: Net, a: Action)
    requires Setup(net) && MoneyOk(net) && SignaturesOk(net) && Enabled(net, a) && (a.Sign? || a.SelfSign? || a.Retry?)
    requires Setup(Next(net, a))
    ensures SignaturesOk(Next(net, a))
  {
    hide QuorumSize, QuorumSigned, ValidatorSigned, SignersWithin, ConfirmedSigned, BooksTold;
    match a {
      case Sign(tx, sh, id) =>
        forall u | u in net.nodes
          ensures BooksTold(net.nodes[u], Next(net, a).signed, net.orders) && ConfirmedSigned(net.nodes[u], Next(net, a).signed)
        {
          StillTold(net.nodes[u], net.signed, Next(net, a).signed, net.orders, net.orders);
        }
      case SelfSign(s, tx, sh, id) =>
        SelfSignKeepsSignatures(net, s, tx, sh, id);
      case Retry(s) =>
        RegossipEffect(net.nodes[s], net.nodes[s].pending);
    }
  }

  lemma SelfSignKeepsSignatures(net: Net, s: Shard, tx: TxId, sh: Shard, id: Id)
    requires Setup(net) && SignaturesOk(net) && s in net.nodes && Setup(Apply(net, s, ValidatorSigned(net.nodes[s], tx, sh, id)))
    ensures SignaturesOk(Apply(net, s, ValidatorSigned(net.nodes[s], tx, sh, id)))
  {
    hide QuorumSize, QuorumSigned, ValidatorSigned, SignersWithin;
    var n := net.nodes[s];
    var o := ValidatorSigned(n, tx, sh, id);
    ValidatorSignedTold(n, tx, sh, id, net.signed, net.orders);
    ValidatorSignedQuiet(n, tx, sh, id);
    MoreSignatures(n, o.node, net.signed, net.signed + o.signed);
    OneNodeKeepsSignatures(net, s, o);
  }

  lemma NextKeepsSignatures(net: Net, a: Action)
    requires Setup(net) && MoneyOk(net) && SignaturesOk(net) && Enabled(net, a)
    ensures Setup(Next(net, a)) && SignaturesOk(Next(net, a))
  {
    hide QuorumSize, Next, SignaturesOk;
    NextKeepsMoney(net, a);
    match a {
      case Submit(tx, t) => SubmitKeepsSignatures(net, tx, t);
      case DeliverCredit(s, m) => CreditKeepsSignatures(net, s, m);
      case DeliverAck(s, m) => AckKeepsSignatures(net, s, m);
      case Sign(_, _, _) => RestKeepsSignatures(net, a);
      case SelfSign(_, _, _, _) => RestKeepsSignatures(net, a);
      case Retry(_) => RestKeepsSignatures(net, a);
    }
  }

  /** What a node pays out becomes its own record as target, never as origin. */
  lemma PaidAtTarget(net: Net, s: Shard, m: Message)
    requires Setup(net) && MoneyOk(net) && Enabled(net, DeliverCredit(s, m)) && Pays(net.nodes[s], m)
    ensures PaidTransfer(net.nodes[s], m).origin != s
  {
  }

  lemma KnownFit(net: Net, s: Shard)
    requires Setup(net) && MoneyOk(net) && s in net.nodes
    ensures forall tx | tx in net.nodes[s].transfers :: tx in net.orders && Fits(net.nodes[s].transfers[tx], net.orders[tx])
  {
  }

  /**
   * Two-shard commit. In every reachable state, a transfer confirmed at its origin carries a quorum
   * of signatures from the committee of each of its two shards that has one.
   */
  lemma {:induction false} CommitNeedsBothQuorums(nets: seq<Net>, actions: seq<Action>, i: nat)
    requires Run(nets, actions) && i < |nets|
    ensures Setup(nets[i]) && SignaturesOk(nets[i])
    ensures forall s, tx, u | s in nets[i].nodes && tx in nets[i].nodes[s].transfers
                              && nets[i].nodes[s].transfers[tx].origin == s && nets[i].nodes[s].transfers[tx].status == Confirmed
                              && (u == s || u == nets[i].nodes[s].transfers[tx].target)
                              && nets[i].nodes[s].books.Committee(u) != {} ::
              QuorumSigned(nets[i].nodes[s].books, nets[i].signed, tx, u)
  {
    hide QuorumSize, Next, QuorumSigned;
    RunKeepsMoney(nets, actions, i);
    if i > 0 {
      CommitNeedsBothQuorums(nets, actions, i - 1);
      assert StepAt(nets, actions, i - 1);
      RunKeepsMoney(nets, actions, i - 1);
      NextKeepsSignatures(nets[i - 1], actions[i - 1]);
    }
    assert forall s | s in nets[i].nodes :: nets[i].nodes[s].shard == s && ConfirmedSigned(nets[i].nodes[s], nets[i].signed);
  }

  /** The step submits the transfer again at node `s`. */
  ghost predicate SubmitsAt(a: Action, s: Shard, tx: TxId) { a.Submit? && a.tx == tx && a.transfer.origin == s }

  /** One step takes a confirmed transfer back exactly when it submits it again at that node. */
  lemma ConfirmedKeptIff(net: Net, a: Action, s: Shard, tx: TxId)
    requires Setup(net) && MoneyOk(net) && Enabled(net, a)
    requires s in net.nodes && tx in net.nodes[s].transfers && net.nodes[s].transfers[tx].status == Confirmed
    ensures var net' := Next(net, a);
            && s in net'.nodes && tx in net'.nodes[s].transfers
            && (net'.nodes[s].transfers[tx].status == Confirmed <==> !SubmitsAt(a, s, tx))
  {
    hide QuorumSize, Submitted, Credited, AckReceived, ValidatorSigned;
    assert KnownRightly(net, s, tx);
    match a {
      case Submit(k, t) => SubmittedEffect(net.nodes[t.origin], k, t);
      case DeliverCredit(u, m) => CreditedEffect(net.nodes[u], m);
      case DeliverAck(u, m) => AckReceivedEffect(net.nodes[u], m);
      case Sign(_, _, _) =>
      case SelfSign(u, k, sh, id) => ValidatorSignedQuiet(net.nodes[u], k, sh, id);
      case Retry(u) =>
    }
  }

  /** A confirmed transfer stays confirmed until it is submitted again. */
  lemma {:induction false} ConfirmedForever(nets: seq<Net>, actions: seq<Action>, i: nat, k: nat, s: Shard, tx: TxId)
    requires Run(nets, actions) && i <= k < |nets|
    requires s in nets[i].nodes && tx in nets[i].nodes[s].transfers && nets[i].nodes[s].transfers[tx].status == Confirmed
    requires forall j | i <= j < k :: !SubmitsAt(actions[j], s, tx)
    ensures s in nets[k].nodes && tx in nets[k].nodes[s].transfers && nets[k].nodes[s].transfers[tx].status == Confirmed
    decreases k - i
  {
    hide QuorumSize, Next;
    if i < k {
      ConfirmedForever(nets, actions, i, k - 1, s, tx);
      RunKeepsMoney(nets, actions, k - 1);
      assert StepAt(nets, actions, k - 1);
      ConfirmedKeptIff(nets[k - 1], actions[k - 1], s, tx);
    }
  }
}
