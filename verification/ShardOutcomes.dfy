/** What confirmation at the origin does and does not say about the money (dynamic_sharding.py). */
module ShardOutcomes {
  import opened Coordinator
  import opened Sharding
  import opened ShardNetwork

  // ---------------------------------------------------------------- which step does what

  /** Step `i` submits the transfer with a sender who can cover it. */
  ghost predicate DebitsAt(nets: seq<Net>, actions: seq<Action>, i: int, tx: TxId) {
    && 0 <= i < |actions| && i < |nets| && actions[i].Submit? && actions[i].tx == tx
    && actions[i].transfer.origin in nets[i].nodes && CanDebit(nets[i].nodes[actions[i].transfer.origin], actions[i].transfer)
  }

  /** The transfer is confirmed at its origin `s`. */
  ghost predicate ConfirmedAt(net: Net, s: Shard, tx: TxId) {
    && s in net.nodes && tx in net.nodes[s].transfers
    && net.nodes[s].transfers[tx].origin == s && net.nodes[s].transfers[tx].status == Confirmed
  }

  lemma StepMarks(nets: seq<Net>, actions: seq<Action>, i: nat, tx: TxId)
    requires Run(nets, actions) && i < |actions|
    ensures tx in nets[i + 1].debited <==> tx in nets[i].debited || DebitsAt(nets, actions, i, tx)
    ensures tx in nets[i + 1].credited <==> tx in nets[i].credited || PaysAt(nets, actions, i, tx)
  {
    hide QuorumSize, Submitted, Credited, AckReceived, ValidatorSigned, Run;
    RunStep(nets, actions, i);
    var (net, a) := (nets[i], actions[i]);
    match a {
      case Submit(k, t) => SubmittedEffect(net.nodes[t.origin], k, t);
      case DeliverCredit(u, m) => CreditedEffect(net.nodes[u], m);
      case DeliverAck(u, m) => AckReceivedEffect(net.nodes[u], m);
      case Sign(_, _, _) =>
      case SelfSign(u, k, sh, id) => ValidatorSignedQuiet(net.nodes[u], k, sh, id);
      case Retry(u) =>
    }
  }

  lemma RunStep(nets: seq<Net>, actions: seq<Action>, i: nat)
    requires Run(nets, actions) && i < |actions|
    ensures i + 1 < |nets| && Setup(nets[i]) && MoneyOk(nets[i]) && Enabled(nets[i], actions[i])
    ensures nets[i + 1] == Next(nets[i], actions[i])
  {
    hide QuorumSize, Next, MoneyOk;
    RunKeepsMoney(nets, actions, i);
    assert StepAt(nets, actions, i);
  }

  /**
   * In every reachable state a transfer, confirmed at its origin or not, has been paid in exactly when its
   * sender could cover it at one of its submissions, and paid out exactly when the target paid on a delivery.
   */
  lemma {:induction false} MarksExactly(nets: seq<Net>, actions: seq<Action>, i: nat, tx: TxId)
    requires Run(nets, actions) && i < |nets|
    ensures tx in nets[i].debited <==> exists k :: k < i && DebitsAt(nets, actions, k, tx)
    ensures tx in nets[i].credited <==> exists k :: k < i && PaysAt(nets, actions, k, tx)
  {
    hide DebitsAt, PaysAt, StepAt;
    Nonnegative(nets, actions, tx);
    if i > 0 {
      MarksExactly(nets, actions, i - 1, tx);
      StepMarks(nets, actions, i - 1, tx);
    }
  }

  lemma Nonnegative(nets: seq<Net>, actions: seq<Action>, tx: TxId)
    ensures forall k | DebitsAt(nets, actions, k, tx) || PaysAt(nets, actions, k, tx) :: 0 <= k
  {
  }

  // ---------------------------------------------------------------- what confirms

  /**
   * Of all steps, the only one that confirms a transfer at its origin is the delivery there of an
   * acknowledgement of that transfer that completes the quorum. The debit is not looked at.
   */
  lemma ConfirmsIff(net: Net, a: Action, s: Shard, tx: TxId)
    requires Setup(net) && MoneyOk(net) && Enabled(net, a) && s in net.nodes && tx in net.nodes[s].transfers
    requires net.nodes[s].transfers[tx].origin == s && !ConfirmedAt(net, s, tx)
    ensures ConfirmedAt(Next(net, a), s, tx) <==>
            a.DeliverAck? && a.to == s && a.m.tx == tx && tx != "" && CompletesQuorum(net.nodes[s], a.m)
  {
    hide QuorumSize, Submitted, Credited, AckReceived, ValidatorSigned, AckRecorded, Books.Reached;
    match a {
      case Submit(k, t) => SubmittedEffect(net.nodes[t.origin], k, t);
      case DeliverCredit(u, m) => CreditedEffect(net.nodes[u], m);
      case DeliverAck(u, m) => AckReceivedShape(net.nodes[u], m);
      case Sign(_, _, _) =>
      case SelfSign(u, k, sh, id) => ValidatorSignedQuiet(net.nodes[u], k, sh, id);
      case Retry(u) =>
    }
  }

  /** Recording the acknowledgement leaves the books of the transfer's origin at quorum. */
  ghost predicate CompletesQuorum(n: Node, m: Message)
    requires BooksOk(n) && m.Ack?
  {
    AckRecordedQuiet(n, m, true);
    AckRecorded(n, m, true).node.books.Reached(m.tx)
  }

  // ---------------------------------------------------------------- after confirmation

  /** A confirmed transfer is never gossiped again. */
  lemma NothingToRetry(net: Net, u: Shard, s: Shard, tx: TxId)
    requires Setup(net) && MoneyOk(net) && u in net.nodes && ConfirmedAt(net, s, tx)
    ensures forall m | m in Regossip(net.nodes[u], net.nodes[u].pending) :: m.Credit? && m.tx != tx
  {
    RegossipEffect(net.nodes[u], net.nodes[u].pending);
    if tx in net.nodes[u].transfers {
      assert KnownRightly(net, u, tx) && KnownRightly(net, s, tx);
    }
  }

  lemma SendsNoCredit(net: Net, a: Action, s: Shard, tx: TxId)
    requires Setup(net) && MoneyOk(net) && Enabled(net, a) && ConfirmedAt(net, s, tx) && !SubmitsAt(a, s, tx)
    ensures forall m | m in Next(net, a).sent && m.Credit? && m.tx == tx :: m in net.sent
  {
    hide QuorumSize, Submitted, Credited, AckReceived, ValidatorSigned;
    assert KnownRightly(net, s, tx);
    match a {
      case Submit(k, t) => SubmittedEffect(net.nodes[t.origin], k, t);
      case DeliverCredit(u, m) => CreditedEffect(net.nodes[u], m);
      case DeliverAck(u, m) => AckReceivedEffect(net.nodes[u], m);
      case Sign(_, _, _) =>
      case SelfSign(u, k, sh, id) => ValidatorSignedQuiet(net.nodes[u], k, sh, id);
      case Retry(u) => NothingToRetry(net, u, s, tx);
    }
  }

  /** Once a transfer is confirmed, and until it is submitted again, no new copy of its credit message is gossiped. */
  lemma {:induction false} NeverResent(nets: seq<Net>, actions: seq<Action>, i: nat, k: nat, s: Shard, tx: TxId)
    requires Run(nets, actions) && i <= k < |nets| && ConfirmedAt(nets[i], s, tx)
    requires forall j | i <= j < k :: !SubmitsAt(actions[j], s, tx)
    ensures ConfirmedAt(nets[k], s, tx)
    ensures forall m | m in nets[k].sent && m.Credit? && m.tx == tx :: m in nets[i].sent
    decreases k - i
  {
    hide Next, StepAt, QuorumSize, MoneyOk, Setup, Enabled;
    if i < k {
      NeverResent(nets, actions, i, k - 1, s, tx);
      RunStep(nets, actions, k - 1);
      SendsNoCredit(nets[k - 1], actions[k - 1], s, tx);
      StaysConfirmed(nets[k - 1], actions[k - 1], s, tx);
    }
  }

  lemma StaysConfirmed(net: Net, a: Action, s: Shard, tx: TxId)
    requires Setup(net) && MoneyOk(net) && Enabled(net, a) && ConfirmedAt(net, s, tx) && !SubmitsAt(a, s, tx)
    ensures ConfirmedAt(Next(net, a), s, tx)
  {
    hide Next, QuorumSize;
    ConfirmedKeptIff(net, a, s, tx);
    NextKeepsMoney(net, a);
    assert KnownRightly(net, s, tx) && KnownRightly(Next(net, a), s, tx);
    SameOrders(net, a, tx);
  }

  lemma SameOrders(net: Net, a: Action, tx: TxId)
    requires Setup(net) && MoneyOk(net) && Enabled(net, a) && tx in net.orders
    ensures tx in Next(net, a).orders && Next(net, a).orders[tx] == net.orders[tx]
  {
    hide QuorumSize, Submitted, Credited, AckReceived, ValidatorSigned, Regossip, MoneyOk;
  }

  /** Step `j` delivers a copy of the credit message, gossiped by moment `i`, to the shard it is for. */
  ghost predicate ArrivesAt(nets: seq<Net>, actions: seq<Action>, i: nat, j: int, tx: TxId) {
    && 0 <= j < |actions| && i < |nets| && actions[j].DeliverCredit? && actions[j].m in nets[i].sent
    && actions[j].m.Credit? && actions[j].m.tx == tx && actions[j].to == actions[j].m.target
  }

  /**
   * Stranded money. A transfer confirmed at its origin before it was paid out, and not submitted again, is
   * paid out later exactly when a copy of its credit message gossiped before the confirmation still arrives:
   * the origin no longer retries it.
   */
  lemma PaidLaterIff(nets: seq<Net>, actions: seq<Action>, i: nat, k: nat, s: Shard, tx: TxId)
    requires Run(nets, actions) && i <= k < |nets| && ConfirmedAt(nets[i], s, tx) && tx !in nets[i].credited && tx != ""
    requires forall j | i <= j < k :: !SubmitsAt(actions[j], s, tx)
    ensures tx in nets[k].credited <==> exists j :: i <= j < k && ArrivesAt(nets, actions, i, j, tx)
  {
    hide Run, Next, MoneyOk, Setup, Enabled, QuorumSize;
    MarksExactly(nets, actions, i, tx);
    MarksExactly(nets, actions, k, tx);
    if tx in nets[k].credited {
      var j :| j < k && PaysAt(nets, actions, j, tx);
      assert i <= j;
      NeverResent(nets, actions, i, j, s, tx);
      RunStep(nets, actions, j);
      Delivered(nets[j], actions[j]);
      assert ArrivesAt(nets, actions, i, j, tx);
    }
    if j :| i <= j < k && ArrivesAt(nets, actions, i, j, tx) {
      RunStep(nets, actions, j);
      Delivered(nets[j], actions[j]);
      ArrivalPays(nets[j], actions[j].to, actions[j].m);
      StepMarks(nets, actions, j, tx);
      CreditedStays(nets, actions, j + 1, k, tx);
    }
  }

  lemma Delivered(net: Net, a: Action)
    requires Setup(net) && Enabled(net, a) && a.DeliverCredit?
    ensures a.m in net.sent && a.m.Credit? && a.to in net.nodes && net.nodes[a.to].shard == a.to
  {
  }

  /** A credit message that reaches its shard is paid, or was. */
  lemma ArrivalPays(net: Net, s: Shard, m: Message)
    requires Setup(net) && MoneyOk(net) && Enabled(net, DeliverCredit(s, m)) && m.target == s && m.tx != ""
    ensures Pays(net.nodes[s], m) || m.tx in net.credited
  {
    if m.tx in net.nodes[s].transfers { assert KnownRightly(net, s, m.tx); }
  }

  // ---------------------------------------------------------------- early signatures

  /**
   * A transfer confirmed at its origin and not paid out means that a whole quorum of the target's committee
   * signed it before the target paid.
   */
  lemma StrandedIsSignedEarly(nets: seq<Net>, actions: seq<Action>, i: nat, s: Shard, tx: TxId)
    requires Run(nets, actions) && i < |nets| && ConfirmedAt(nets[i], s, tx) && tx !in nets[i].credited
    requires nets[i].nodes[s].books.Committee(nets[i].nodes[s].transfers[tx].target) != {}
    ensures Setup(nets[i])
    ensures var n := nets[i].nodes[s]; QuorumSigned(n.books, nets[i].signed, tx, n.transfers[tx].target)
    ensures forall k | 0 <= k < i :: !PaysAt(nets, actions, k, tx)
  {
    hide Run, Next, QuorumSize, PaysAt, QuorumSigned;
    CommitNeedsBothQuorums(nets, actions, i);
    MarksExactly(nets, actions, i, tx);
  }

  const HOME := Shard(0)
  const AWAY := Shard(1)

  function Order(): Transfer { Transfer(HOME, AWAY, "a", "b", 5, Pending) }

  /** Two shards with one committee member each; the sender holds `funds`. */
  ghost function Start(funds: nat): Net {
    var books := Books(map[], map[], map[], map[HOME := {"v"}, AWAY := {"w"}], 0.75);
    Net(map[HOME := Node(HOME, "v", true, map["a" := funds], map[], [], {}, {}, books),
            AWAY := Node(AWAY, "w", true, map[], map[], [], {}, {}, books)],
        {}, {}, map[], {}, {})
  }

  function EarlyActions(): seq<Action> {
    [Submit("x", Order()), Sign("x", HOME, "v"), Sign("x", AWAY, "w"),
     DeliverAck(HOME, Ack("x", HOME, "v")), DeliverAck(HOME, Ack("x", AWAY, "w"))]
  }

  /** Recording a committee member's acknowledgement adds that signer and nothing else. */
  lemma AckAdds(b: Books, tx: TxId, s: Shard, id: Id)
    requires 0.5 <= b.fraction <= 1.0 && tx in b.required && s in b.required[tx] && id != "" && id in b.Committee(s)
    ensures var b' := b.ValidatorAck(tx, s, id);
            && b'.required == b.required && b'.committees == b.committees && b'.fraction == b.fraction
            && forall u :: b'.Signers(tx, u) == b.Signers(tx, u) + if u == s then {id} else {}
  {
    hide QuorumSize, Books.ShardMet;
  }

  /** The origin's books on transfer "x": who signed, and that its gossip filter hides no signer. */
  ghost predicate Signed(n: Node, home: set<Id>, away: set<Id>) {
    && n.shard == HOME && n.books.fraction == 0.75 && n.books.committees == map[HOME := {"v"}, AWAY := {"w"}]
    && "x" in n.transfers && n.transfers["x"].origin == HOME
    && "x" in n.books.required && n.books.required["x"] == {HOME, AWAY}
    && n.books.Signers("x", HOME) == home && n.books.Signers("x", AWAY) == away
    && (("x", HOME, "v") in n.seen ==> "v" in home) && (("x", AWAY, "w") in n.seen ==> "w" in away)
  }

  lemma SubmitSigns(funds: nat)
    ensures var n := Start(funds).nodes[HOME];
            Signed(Submitted(n, "x", Order()).node, if funds >= 5 then {"v"} else {}, {})
  {
    hide QuorumSize;
    var n := Start(funds).nodes[HOME];
    SubmittedEffect(n, "x", Order());
    if funds >= 5 { AckAdds(n.books.Begin("x", HOME, AWAY), "x", HOME, "v"); }
  }

  lemma RecordSigns(n: Node, home: set<Id>, away: set<Id>, s: Shard, id: Id)
    requires Signed(n, home, away) && ((s == HOME && id == "v") || (s == AWAY && id == "w"))
    ensures Signed(AckRecorded(n, Ack("x", s, id), true).node,
                   if s == HOME then home + {id} else home, if s == AWAY then away + {id} else away)
  {
    hide QuorumSize, AckRecorded, Books.ValidatorAck;
    AckRecordedQuiet(n, Ack("x", s, id), true);
    RecordedBooks(n, Ack("x", s, id));
    AckAdds(n.books, "x", s, id);
  }

  lemma RecordedBooks(n: Node, m: Message)
    requires BooksOk(n) && m.Ack? && m.id != ""
    ensures var (r, key) := (AckRecorded(n, m, true).node, (m.tx, m.shard, m.id));
            && r.seen == n.seen + {key}
            && r.books == if key in n.seen then n.books else n.books.ValidatorAck(m.tx, m.shard, m.id)
  {
    hide QuorumSize, Books.ValidatorAck;
  }

  lemma ReachedWhenBothSign(n: Node, home: set<Id>, away: set<Id>)
    requires Signed(n, home, away)
    ensures n.books.Reached("x") <==> home != {} && away != {}
  {
    assert n.books.Committee(HOME) == {"v"} && n.books.Committee(AWAY) == {"w"};
    assert QuorumSize(1, 0.75) == 1;
    hide QuorumSize;
    assert n.books.ShardMet("x", HOME) <==> home != {};
    assert n.books.ShardMet("x", AWAY) <==> away != {};
  }

  /** Two acknowledgements delivered at the origin confirm the transfer there. */
  lemma TwoAcksConfirm(n: Node, home: set<Id>)
    requires Signed(n, home, {})
    ensures var n' := AckReceived(n, Ack("x", HOME, "v")).0.node;
            && BooksOk(n')
            && var n'' := AckReceived(n', Ack("x", AWAY, "w")).0.node;
               "x" in n''.transfers && n''.transfers["x"].origin == HOME && n''.transfers["x"].status == Confirmed
               && n''.balances == n.balances
  {
    hide QuorumSize, AckReceived, AckRecorded, Books.Reached;
    var (m, m') := (Ack("x", HOME, "v"), Ack("x", AWAY, "w"));
    AckReceivedShape(n, m);
    AckReceivedEffect(n, m);
    RecordSigns(n, home, {}, HOME, "v");
    var n' := AckReceived(n, m).0.node;
    var r := AckRecorded(n, m, true).node;
    ReachedWhenBothSign(r, home + {"v"}, {});
    AckRecordedQuiet(n, m, true);
    AckReceivedShape(n', m');
    AckReceivedEffect(n', m');
    SameSeen(n, m);
    RecordSigns(n', home + {"v"}, {}, AWAY, "w");
    ReachedWhenBothSign(AckRecorded(n', m', true).node, home + {"v"}, {"w"});
  }

  lemma SameSeen(n: Node, m: Message)
    requires BooksOk(n) && m.Ack? && m.id != ""
    ensures AckReceived(n, m).0.node.seen <= n.seen + {(m.tx, m.shard, m.id)}
  {
    hide QuorumSize;
  }

  /**
   * Both committees sign as soon as the transfer is announced. With too little money the debit fails and the
   * origin confirms the transfer all the same, no balance having changed; with enough the sender has paid,
   * the origin confirms and nothing has been paid out.
   */
  lemma EarlyQuorumConfirms(funds: nat) returns (nets: seq<Net>)
    ensures Run(nets, EarlyActions()) && nets[0] == Start(funds)
    ensures var end := nets[5];
            && ConfirmedAt(end, HOME, "x") && end.credited == {} && end.debited == (if funds >= 5 then {"x"} else {})
            && end.nodes[HOME].balances == map["a" := if funds >= 5 then funds - 5 else funds]
            && AWAY in end.nodes && end.nodes[AWAY] == Start(funds).nodes[AWAY]
  {
    hide QuorumSize, Submitted, AckReceived, Signed, Next, MoneyOk, Setup;
    var (n0, actions) := (Start(funds), EarlyActions());
    StartSubmits(funds);
    var n1 := Next(n0, actions[0]);
    TwoAcksConfirm(n1.nodes[HOME], if funds >= 5 then {"v"} else {});
    SignStep(n1, HOME, "v");
    var n2 := Next(n1, actions[1]);
    SignStep(n2, AWAY, "w");
    var n3 := Next(n2, actions[2]);
    AckStep(n3, Ack("x", HOME, "v"));
    var n4 := Next(n3, actions[3]);
    AckStep(n4, Ack("x", AWAY, "w"));
    var n5 := Next(n4, actions[4]);
    nets := [n0, n1, n2, n3, n4, n5];
    assert StepAt(nets, actions, 0) && StepAt(nets, actions, 1) && StepAt(nets, actions, 2);
    assert StepAt(nets, actions, 3) && StepAt(nets, actions, 4);
  }

  lemma StartSubmits(funds: nat)
    ensures var (n0, a) := (Start(funds), Submit("x", Order()));
            && Initial(n0) && Setup(n0) && MoneyOk(n0) && Enabled(n0, a)
            && var n1 := Next(n0, a);
               && Setup(n1) && MoneyOk(n1) && HOME in n1.nodes && AWAY in n1.nodes && n1.nodes[AWAY] == n0.nodes[AWAY]
               && Signed(n1.nodes[HOME], if funds >= 5 then {"v"} else {}, {})
               && n1.nodes[HOME].balances == map["a" := if funds >= 5 then funds - 5 else funds]
               && n1.credited == {} && n1.debited == if funds >= 5 then {"x"} else {}
  {
    hide QuorumSize, Submitted, Signed, Next, MoneyOk;
    var n0 := Start(funds);
    StartOk(funds);
    SubmitSigns(funds);
    SubmittedEffect(n0.nodes[HOME], "x", Order());
    SubmitStep(n0, "x", Order());
  }

  lemma StartOk(funds: nat)
    ensures var n0 := Start(funds); Initial(n0) && Setup(n0) && MoneyOk(n0) && Enabled(n0, Submit("x", Order()))
  {
    hide QuorumSize;
  }

  lemma SubmitStep(net: Net, tx: TxId, t: Transfer)
    requires Setup(net) && MoneyOk(net) && Enabled(net, Submit(tx, t))
    ensures var (n, net') := (net.nodes[t.origin], Next(net, Submit(tx, t)));
            && Setup(net') && MoneyOk(net') && net'.nodes == net.nodes[t.origin := Submitted(n, tx, t).node]
            && net'.credited == net.credited && net'.debited == net.debited + if CanDebit(n, t) then {tx} else {}
  {
    hide QuorumSize, Submitted, MoneyOk, Supply, DebitsAgain;
    NextKeepsMoney(net, Submit(tx, t));
    SubmittedEffect(net.nodes[t.origin], tx, t);
  }

  lemma SignStep(net: Net, s: Shard, id: Id)
    requires Setup(net) && MoneyOk(net)
    ensures var net' := Next(net, Sign("x", s, id));
            && Enabled(net, Sign("x", s, id)) && Setup(net') && MoneyOk(net')
            && net'.sent == net.sent + {Ack("x", s, id)} && net'.nodes == net.nodes
            && net'.debited == net.debited && net'.credited == net.credited
  {
    hide QuorumSize;
    NextKeepsMoney(net, Sign("x", s, id));
  }

  lemma AckStep(net: Net, m: Message)
    requires Setup(net) && MoneyOk(net) && HOME in net.nodes && m in net.sent && m.Ack?
    ensures var net' := Next(net, DeliverAck(HOME, m));
            && Enabled(net, DeliverAck(HOME, m)) && Setup(net') && MoneyOk(net')
            && BooksOk(net.nodes[HOME]) && net'.nodes == net.nodes[HOME := AckReceived(net.nodes[HOME], m).0.node]
            && net.sent <= net'.sent && net'.debited == net.debited && net'.credited == net.credited
  {
    hide QuorumSize, AckReceived, MoneyOk, Supply, DebitsAgain;
    NextKeepsMoney(net, DeliverAck(HOME, m));
    AckReceivedEffect(net.nodes[HOME], m);
  }
}
