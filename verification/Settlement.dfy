/**
  The settlement contract: deposits, proofs that rotate the state root and pay
  the prover, and everything a paid recipient may do in return, including calls
  back into the contract and reverts at any depth.
*/
module Settlement {
  import opened Bytes
  import opened Abi
  import opened Counting

  function Zero(): Word { seq(32, _ => 0) }

  // The hash function, the immutable verifier, and the hashes of the chain's blocks.
  datatype Env = Env(keccak: seq<byte> -> Word, verify: (seq<byte>, Word) -> bool, hashOf: nat -> Word)

  // blockhash(n) in block `block`: known for the 256 blocks before it, otherwise zero.
  function BlockHash(env: Env, block: nat, n: nat): Word {
    if n < block <= n + 256 then env.hashOf(n) else Zero()
  }

  // The arguments of proofBlobDA, and its caller.
  datatype Request = Request(
    blobs: seq<BlobRef>, prevRoot: Word, newRoot: Word, totalEtherPaid: U256, blockNumber: U256, sender: Address
  )

  // One external interaction. `onPay` is what the recipient does while it is being paid.
  datatype Call =
    | Deposit(beneficiary: Address, value: nat)
    | Settle(request: Request, proof: seq<byte>, onPay: seq<Call>, payeeReverts: bool)
    | Frame(calls: seq<Call>, reverts: bool)   // some other contract's frame, kept or rolled back
    | Force(amount: nat)                       // ether that arrives without a call

  // A settlement: the request, its proof, and the block it was made in.
  datatype Settled = Settled(block: nat, request: Request, proof: seq<byte>)

  function InputsOf(env: Env, r: Settled): PublicInputs {
    PublicInputs(r.request.blobs, r.request.prevRoot, r.request.newRoot, r.request.totalEtherPaid,
                 BlockHash(env, r.block, r.request.blockNumber), r.request.sender)
  }

  function DigestOf(env: Env, r: Settled): Word {
    env.keccak(ContractPreimage(InputsOf(env, r)))
  }

  predicate Accepted(env: Env, r: Settled) {
    env.verify(r.proof, DigestOf(env, r))
  }

  // Storage and ether, with the history since deployment: settlements in the
  // order the root was rotated, and in the order their events were emitted.
  datatype State = State(
    balances: map<Address, nat>, root: Word, ether: nat, forced: nat, settled: seq<Settled>, events: seq<Settled>
  )

  // The state right after deployment.
  function Deployed(): State { State(map[], Zero(), 0, 0, [], []) }

  // The root is rotated and the payment leaves before the recipient runs.
  function Paid(s: State, r: Settled): State
    requires s.ether >= r.request.totalEtherPaid
  {
    s.(root := r.request.newRoot, ether := s.ether - r.request.totalEtherPaid, settled := s.settled + [r])
  }

  // Result state and success of one call in block `block`; a failed call changes nothing.
  function Exec(env: Env, block: nat, s: State, c: Call): (State, bool)
    decreases c
  {
    match c
    case Deposit(who, value) =>
      var total := At(s.balances, who) + value;
      if total >= U256_LIMIT then (s, false)
      else (s.(balances := s.balances[who := total], ether := s.ether + value), true)
    case Settle(request, proof, onPay, payeeReverts) =>
      var r := Settled(block, request, proof);
      if request.prevRoot != s.root || !Accepted(env, r) then (s, false)
      else if s.ether < request.totalEtherPaid || payeeReverts then (s, false)
      else
        var after := ExecAll(env, block, Paid(s, r), onPay);
        (after.(events := after.events + [r]), true)
    case Frame(calls, reverts) =>
      if reverts then (s, false) else (ExecAll(env, block, s, calls), true)
    case Force(amount) =>
      (s.(ether := s.ether + amount, forced := s.forced + amount), true)
  }

  // A caller may go on after a failed call.
  function ExecAll(env: Env, block: nat, s: State, calls: seq<Call>): State
    decreases calls
  {
    if calls == [] then s else ExecAll(env, block, Exec(env, block, s, calls[0]).0, calls[1..])
  }

  // A transaction runs in one block; later transactions run in the same block or a later one.
  datatype Tx = Tx(block: nat, call: Call)

  predicate Ordered(from: nat, txs: seq<Tx>)
    decreases |txs|
  {
    txs != [] ==> from <= txs[0].block && Ordered(txs[0].block, txs[1..])
  }

  function LastBlock(from: nat, txs: seq<Tx>): nat
    decreases |txs|
  {
    if txs == [] then from else LastBlock(txs[0].block, txs[1..])
  }

  function Run(env: Env, s: State, txs: seq<Tx>): State
    decreases |txs|
  {
    if txs == [] then s else Run(env, Exec(env, txs[0].block, s, txs[0].call).0, txs[1..])
  }

  // ---- walks of the root ----------------------------------------------------

  // The root that a history of settlements leaves.
  function EndRoot(w: seq<Settled>): Word {
    if w == [] then Zero() else w[|w| - 1].request.newRoot
  }

  predicate NotAfter(w: seq<Settled>, block: nat) {
    w != [] ==> w[|w| - 1].block <= block
  }

  // `r` may follow `w`: it is accepted, starts at the root `w` left, and is not in an earlier block.
  predicate Follows(env: Env, w: seq<Settled>, r: Settled) {
    Accepted(env, r) && r.request.prevRoot == EndRoot(w) && NotAfter(w, r.block)
  }

  // Every settlement follows the ones before it.
  predicate IsWalk(env: Env, w: seq<Settled>)
    decreases |w|
  {
    w == [] || (IsWalk(env, w[..|w| - 1]) && Follows(env, w[..|w| - 1], w[|w| - 1]))
  }

  lemma WalkAppend(env: Env, w: seq<Settled>, r: Settled)
    requires IsWalk(env, w) && Follows(env, w, r)
    ensures IsWalk(env, w + [r]) && EndRoot(w + [r]) == r.request.newRoot
  {
    assert (w + [r])[..|w|] == w;
  }

  lemma {:induction false} WalkAt(env: Env, w: seq<Settled>, i: nat)
    requires IsWalk(env, w) && i < |w|
    ensures IsWalk(env, w[..i]) && Follows(env, w[..i], w[i])
    decreases |w|
  {
    var front := w[..|w| - 1];
    if i < |front| {
      WalkAt(env, front, i);
      assert front[..i] == w[..i];
    }
  }

  /** Spelled out by position: each settlement is accepted, starts where the previous one ended, and is not earlier. */
  lemma WalkLinks(env: Env, w: seq<Settled>, i: nat)
    requires IsWalk(env, w) && i < |w|
    ensures Accepted(env, w[i])
    ensures w[i].request.prevRoot == if i == 0 then Zero() else w[i - 1].request.newRoot
    ensures i > 0 ==> w[i - 1].block <= w[i].block
  {
    WalkAt(env, w, i);
    if i > 0 {
      assert w[..i][i - 1] == w[i - 1];
    }
  }

  // ---- conservation ---------------------------------------------------------

  function TotalPaid(settled: seq<Settled>): nat {
    if settled == [] then 0
    else TotalPaid(settled[..|settled| - 1]) + settled[|settled| - 1].request.totalEtherPaid
  }

  lemma TotalPaidAppend(settled: seq<Settled>, r: Settled)
    ensures TotalPaid(settled + [r]) == TotalPaid(settled) + r.request.totalEtherPaid
  {
    assert (settled + [r])[..|settled|] == settled;
  }

  // Contract ether is what was deposited or forced in, less what was paid out.
  ghost predicate Conserved(s: State) {
    s.ether + TotalPaid(s.settled) == Sum(s.balances) + s.forced
  }

  // The settlements are a walk that ends at the current root, none later than `block`.
  ghost predicate RootFollows(env: Env, block: nat, s: State) {
    IsWalk(env, s.settled) && NotAfter(s.settled, block) && s.root == EndRoot(s.settled)
  }

  ghost predicate Inv(env: Env, block: nat, s: State) {
    Conserved(s) && RootFollows(env, block, s)
  }

  // What any call may do to credits and history.
  ghost predicate Grows(s: State, t: State) {
    && (forall a :: At(s.balances, a) <= At(t.balances, a))
    && s.settled <= t.settled && s.events <= t.events && s.forced <= t.forced
  }

  lemma GrowsOver(a: State, b: State, c: State)
    requires Grows(a, b) && Grows(b, c)
    ensures Grows(a, c)
  {
    forall x ensures At(a.balances, x) <= At(c.balances, x) {
      assert At(a.balances, x) <= At(b.balances, x) <= At(c.balances, x);
    }
  }

  lemma PaidKeeps(env: Env, s: State, r: Settled)
    requires Inv(env, r.block, s) && r.request.prevRoot == s.root && Accepted(env, r)
    requires s.ether >= r.request.totalEtherPaid
    ensures Inv(env, r.block, Paid(s, r)) && Grows(s, Paid(s, r))
  {
    TotalPaidAppend(s.settled, r);
    WalkAppend(env, s.settled, r);
  }

  lemma DepositConserves(s: State, who: Address, value: nat)
    requires Conserved(s)
    ensures var t := s.(balances := s.balances[who := At(s.balances, who) + value], ether := s.ether + value);
      Conserved(t) && Grows(s, t)
  {
    SumUpdate(s.balances, who, At(s.balances, who) + value);
  }

  lemma DepositKeeps(env: Env, block: nat, s: State, who: Address, value: nat)
    requires Inv(env, block, s)
    ensures var t := Exec(env, block, s, Deposit(who, value)).0; Inv(env, block, t) && Grows(s, t)
  {
    var t := Exec(env, block, s, Deposit(who, value)).0;
    if t != s {
      DepositConserves(s, who, value);
      assert RootFollows(env, block, t);
    }
  }

  lemma Emitted(env: Env, block: nat, s: State, after: State, r: Settled)
    requires Inv(env, block, after) && Grows(s, after)
    ensures Inv(env, block, after.(events := after.events + [r]))
    ensures Grows(s, after.(events := after.events + [r]))
  {
  }

  lemma {:induction false} ExecAllKeeps(env: Env, block: nat, s: State, calls: seq<Call>)
    requires Inv(env, block, s)
    ensures Inv(env, block, ExecAll(env, block, s, calls)) && Grows(s, ExecAll(env, block, s, calls))
    decreases calls
  {
    if calls != [] {
      var mid := Exec(env, block, s, calls[0]).0;
      ExecKeeps(env, block, s, calls[0]);
      ExecAllKeeps(env, block, mid, calls[1..]);
      GrowsOver(s, mid, ExecAll(env, block, mid, calls[1..]));
    }
  }

  lemma {:induction false} SettleKeeps(env: Env, block: nat, s: State, c: Call)
    requires Inv(env, block, s) && c.Settle? && Exec(env, block, s, c).1
    ensures Inv(env, block, Exec(env, block, s, c).0) && Grows(s, Exec(env, block, s, c).0)
    decreases c, 0
  {
    var r := Settled(block, c.request, c.proof);
    var paid := Paid(s, r);
    var after := ExecAll(env, block, paid, c.onPay);
    PaidKeeps(env, s, r);
    ExecAllKeeps(env, block, paid, c.onPay);
    GrowsOver(s, paid, after);
    Emitted(env, block, s, after, r);
  }

  /** Every call, whatever it nests and whatever reverts, keeps ether conserved, the roots chained and the proofs checked. */
  lemma {:induction false} ExecKeeps(env: Env, block: nat, s: State, c: Call)
    requires Inv(env, block, s)
    ensures Inv(env, block, Exec(env, block, s, c).0) && Grows(s, Exec(env, block, s, c).0)
    decreases c, 1
  {
    match c
    case Deposit(who, value) => DepositKeeps(env, block, s, who, value);
    case Settle(_, _, _, _) =>
      if Exec(env, block, s, c).1 {
        SettleKeeps(env, block, s, c);
      }
    case Frame(calls, reverts) =>
      if !reverts {
        ExecAllKeeps(env, block, s, calls);
      }
    case Force(amount) =>
  }

  lemma {:induction false} RunKeeps(env: Env, block: nat, s: State, txs: seq<Tx>)
    requires Inv(env, block, s) && Ordered(block, txs)
    ensures Inv(env, LastBlock(block, txs), Run(env, s, txs)) && Grows(s, Run(env, s, txs))
    decreases |txs|
  {
    if txs != [] {
      var mid := Exec(env, txs[0].block, s, txs[0].call).0;
      ExecKeeps(env, txs[0].block, s, txs[0].call);
      RunKeeps(env, txs[0].block, mid, txs[1..]);
      GrowsOver(s, mid, Run(env, mid, txs[1..]));
    }
  }

  /** Over every run from deployment: payouts never exceed what was deposited or forced in, and the settlements are a walk. */
  lemma PayoutsCovered(env: Env, txs: seq<Tx>)
    requires Ordered(0, txs)
    ensures var s := Run(env, Deployed(), txs);
      && s.ether == Sum(s.balances) + s.forced - TotalPaid(s.settled)
      && TotalPaid(s.settled) <= Sum(s.balances) + s.forced
      && IsWalk(env, s.settled) && s.root == EndRoot(s.settled)
  {
    RunKeeps(env, 0, Deployed(), txs);
  }

  // ---- events come innermost first ------------------------------------------

  datatype Tree = Node(settlement: Settled, children: seq<Tree>)

  function Pre(forest: seq<Tree>): seq<Settled> {
    if forest == [] then [] else [forest[0].settlement] + Pre(forest[0].children) + Pre(forest[1..])
  }

  function Post(forest: seq<Tree>): seq<Settled> {
    if forest == [] then [] else Post(forest[0].children) + [forest[0].settlement] + Post(forest[1..])
  }

  lemma Regroup(a: seq<Settled>, b: seq<Settled>, c: seq<Settled>)
    ensures a + b + c == a + (b + c)
  {
  }

  lemma FirstTree(t: Tree, rest: seq<Tree>)
    ensures Pre([t] + rest) == [t.settlement] + Pre(t.children) + Pre(rest)
    ensures Post([t] + rest) == Post(t.children) + [t.settlement] + Post(rest)
  {
    assert ([t] + rest)[1..] == rest;
  }

  lemma {:induction false} ForestConcat(a: seq<Tree>, b: seq<Tree>)
    ensures Pre(a + b) == Pre(a) + Pre(b) && Post(a + b) == Post(a) + Post(b)
    decreases |a|
  {
    if a == [] {
      assert a + b == b;
    } else {
      ForestConcat(a[1..], b);
      FirstTree(a[0], a[1..] + b);
      FirstTree(a[0], a[1..]);
      assert a + b == [a[0]] + (a[1..] + b) && a == [a[0]] + a[1..];
      Regroup([a[0].settlement] + Pre(a[0].children), Pre(a[1..]), Pre(b));
      Regroup(Post(a[0].children) + [a[0].settlement], Post(a[1..]), Post(b));
    }
  }

  lemma OneTree(t: Tree)
    ensures Pre([t]) == [t.settlement] + Pre(t.children) && Post([t]) == Post(t.children) + [t.settlement]
  {
    assert [t][1..] == [];
  }

  // From `s` to `t` the settlements of `forest` were added: pre-order by rotation, post-order by event.
  ghost predicate HistoryAdds(s: State, t: State, forest: seq<Tree>) {
    t.settled == s.settled + Pre(forest) && t.events == s.events + Post(forest)
  }

  lemma JoinHistory(s: State, mid: State, end: State, first: seq<Tree>, rest: seq<Tree>)
    requires HistoryAdds(s, mid, first) && HistoryAdds(mid, end, rest)
    ensures HistoryAdds(s, end, first + rest)
  {
    ForestConcat(first, rest);
    Regroup(s.settled, Pre(first), Pre(rest));
    Regroup(s.events, Post(first), Post(rest));
  }

  lemma WrapHistory(s: State, paid: State, after: State, r: Settled, children: seq<Tree>)
    requires paid.settled == s.settled + [r] && paid.events == s.events
    requires HistoryAdds(paid, after, children)
    ensures HistoryAdds(s, after.(events := after.events + [r]), [Node(r, children)])
  {
    OneTree(Node(r, children));
    Regroup(s.settled, [r], Pre(children));
    Regroup(s.events, Post(children), [r]);
  }

  lemma NothingAdded(s: State, t: State)
    requires t.settled == s.settled && t.events == s.events
    ensures HistoryAdds(s, t, [])
  {
  }

  lemma {:induction false} SettlementForests(env: Env, block: nat, s: State, calls: seq<Call>) returns (forest: seq<Tree>)
    ensures HistoryAdds(s, ExecAll(env, block, s, calls), forest)
    decreases calls
  {
    if calls == [] {
      forest := [];
      NothingAdded(s, s);
    } else {
      var mid := Exec(env, block, s, calls[0]).0;
      var first := SettlementForest(env, block, s, calls[0]);
      var rest := SettlementForests(env, block, mid, calls[1..]);
      forest := first + rest;
      JoinHistory(s, mid, ExecAll(env, block, mid, calls[1..]), first, rest);
    }
  }

  lemma {:induction false} SettlementTree(env: Env, block: nat, s: State, c: Call) returns (forest: seq<Tree>)
    requires c.Settle? && Exec(env, block, s, c).1
    ensures HistoryAdds(s, Exec(env, block, s, c).0, forest)
    decreases c, 0
  {
    var r := Settled(block, c.request, c.proof);
    var paid := Paid(s, r);
    var children := SettlementForests(env, block, paid, c.onPay);
    forest := [Node(r, children)];
    WrapHistory(s, paid, ExecAll(env, block, paid, c.onPay), r, children);
  }

  /**
    The surviving settlements of a call form a forest of nested calls: the root
    is rotated in its pre-order and the events are emitted in its post-order.
  */
  lemma {:induction false} SettlementForest(env: Env, block: nat, s: State, c: Call) returns (forest: seq<Tree>)
    ensures HistoryAdds(s, Exec(env, block, s, c).0, forest)
    decreases c, 1
  {
    forest := [];
    if c.Frame? && !c.reverts {
      forest := SettlementForests(env, block, s, c.calls);
    } else if c.Settle? && Exec(env, block, s, c).1 {
      forest := SettlementTree(env, block, s, c);
    } else {
      NothingAdded(s, Exec(env, block, s, c).0);
    }
  }

  lemma {:induction false} RunForest(env: Env, s: State, txs: seq<Tx>) returns (forest: seq<Tree>)
    ensures HistoryAdds(s, Run(env, s, txs), forest)
    decreases |txs|
  {
    if txs == [] {
      forest := [];
      NothingAdded(s, s);
    } else {
      var mid := Exec(env, txs[0].block, s, txs[0].call).0;
      var first := SettlementForest(env, txs[0].block, s, txs[0].call);
      var rest := RunForest(env, mid, txs[1..]);
      forest := first + rest;
      JoinHistory(s, mid, Run(env, mid, txs[1..]), first, rest);
    }
  }

  lemma {:induction false} SameSettlements(forest: seq<Tree>)
    ensures multiset(Pre(forest)) == multiset(Post(forest))
  {
    if forest != [] {
      SameSettlements(forest[0].children);
      SameSettlements(forest[1..]);
    }
  }

  lemma WholeHistory(s: State, forest: seq<Tree>)
    requires HistoryAdds(Deployed(), s, forest)
    ensures s.settled == Pre(forest) && s.events == Post(forest)
  {
  }

  /** Every surviving settlement has exactly one event. */
  lemma EventsMatchSettlements(env: Env, txs: seq<Tx>)
    ensures var s := Run(env, Deployed(), txs); multiset(s.events) == multiset(s.settled)
  {
    var forest := RunForest(env, Deployed(), txs);
    SameSettlements(forest);
    WholeHistory(Run(env, Deployed(), txs), forest);
  }

  // ---- replay ---------------------------------------------------------------

  // Both were settled with the same public inputs.
  predicate SameInputs(env: Env, a: Settled, b: Settled) {
    InputsOf(env, a) == InputsOf(env, b)
  }

  // Equal digests come only from a hash collision.
  ghost predicate DistinctUnlessCollision(env: Env, settled: seq<Settled>) {
    forall i, j :: 0 <= i < j < |settled| && DigestOf(env, settled[i]) == DigestOf(env, settled[j]) ==>
      ContractPreimage(InputsOf(env, settled[i])) != ContractPreimage(InputsOf(env, settled[j]))
  }

  // A walk that is back at the root its settlement `i` started from, in block
  // `block` or before, while blockhash(n) gives there the hash that settlement was bound to.
  ghost predicate Returns(env: Env, w: seq<Settled>, i: nat, block: nat, n: nat) {
    && IsWalk(env, w) && i < |w| && NotAfter(w, block) && n < U256_LIMIT
    && EndRoot(w) == w[i].request.prevRoot
    && BlockHash(env, block, n) == BlockHash(env, w[i].block, w[i].request.blockNumber)
  }

  /** Inputs settled twice mean that the root came back to an earlier value in between. */
  lemma RepeatMeansReturn(env: Env, w: seq<Settled>, i: nat, j: nat)
    requires IsWalk(env, w) && i < j < |w| && SameInputs(env, w[i], w[j])
    ensures Returns(env, w[..j], i, w[j].block, w[j].request.blockNumber)
  {
    WalkAt(env, w, j);
    assert w[..j][i] == w[i];
  }

  // The settlement that repeats the inputs of settlement `i`.
  function Again(w: seq<Settled>, i: nat, block: nat, n: nat): Settled
    requires i < |w| && n < U256_LIMIT
  {
    Settled(block, w[i].request.(blockNumber := n), w[i].proof)
  }

  lemma ReturnRepeats(env: Env, w: seq<Settled>, i: nat, block: nat, n: nat)
    requires Returns(env, w, i, block, n)
    ensures IsWalk(env, w + [Again(w, i, block, n)]) && SameInputs(env, w[i], Again(w, i, block, n))
  {
    WalkAt(env, w, i);
    WalkAppend(env, w, Again(w, i, block, n));
  }

  lemma {:induction false} RunAppend(env: Env, s: State, from: nat, txs: seq<Tx>, tx: Tx)
    requires Ordered(from, txs) && LastBlock(from, txs) <= tx.block
    ensures Ordered(from, txs + [tx]) && LastBlock(from, txs + [tx]) == tx.block
    ensures Run(env, s, txs + [tx]) == Exec(env, tx.block, Run(env, s, txs), tx.call).0
    decreases |txs|
  {
    var more := txs + [tx];
    if txs == [] {
      assert more[1..] == [];
    } else {
      RunAppend(env, Exec(env, txs[0].block, s, txs[0].call).0, txs[0].block, txs[1..], tx);
      assert more[1..] == txs[1..] + [tx];
    }
  }

  // A settlement whose recipient does nothing.
  function Alone(r: Settled): Tx {
    Tx(r.block, Settle(r.request, r.proof, [], false))
  }

  lemma SettleAlone(env: Env, s: State, r: Settled)
    requires r.request.prevRoot == s.root && Accepted(env, r) && s.ether >= r.request.totalEtherPaid
    ensures var t := Exec(env, r.block, s, Alone(r).call).0;
      && t.root == r.request.newRoot && t.settled == s.settled + [r]
      && t.ether == s.ether - r.request.totalEtherPaid
  {
    assert ExecAll(env, r.block, Paid(s, r), []) == Paid(s, r);
  }

  /** Every walk is the history of a run: each settlement in a transaction of its own, with `spare` ether left. */
  lemma {:induction false} WalkIsARun(env: Env, w: seq<Settled>, spare: nat) returns (txs: seq<Tx>)
    requires IsWalk(env, w)
    ensures Ordered(0, txs) && LastBlock(0, txs) == if w == [] then 0 else w[|w| - 1].block
    ensures var s := Run(env, Deployed(), txs);
      s.settled == w && s.root == EndRoot(w) && s.ether == spare
    decreases |w|
  {
    if w == [] {
      txs := [Tx(0, Force(spare))];
      assert txs[1..] == [];
    } else {
      var front, last := w[..|w| - 1], w[|w| - 1];
      assert w == front + [last];
      var before := WalkIsARun(env, front, spare + last.request.totalEtherPaid);
      RunAppend(env, Deployed(), 0, before, Alone(last));
      SettleAlone(env, Run(env, Deployed(), before), last);
      txs := before + [Alone(last)];
    }
  }

  ghost predicate NoWalkReturns(env: Env) {
    forall w, i: nat, block: nat, n: nat :: !Returns(env, w, i, block, n)
  }

  /** If no accepted walk from the zero root returns, each digest is paid at most once over every run, collisions aside. */
  lemma DigestPaidOnce(env: Env, txs: seq<Tx>)
    requires Ordered(0, txs) && NoWalkReturns(env)
    ensures DistinctUnlessCollision(env, Run(env, Deployed(), txs).settled)
  {
    var w := Run(env, Deployed(), txs).settled;
    PayoutsCovered(env, txs);
    forall i, j | 0 <= i < j < |w|
      ensures ContractPreimage(InputsOf(env, w[i])) != ContractPreimage(InputsOf(env, w[j]))
    {
      if ContractPreimage(InputsOf(env, w[i])) == ContractPreimage(InputsOf(env, w[j])) {
        PreimageInjective(InputsOf(env, w[i]), InputsOf(env, w[j]));
        RepeatMeansReturn(env, w, i, j);
      }
    }
  }

  /** If one does, some run settles one digest twice, and no collision is needed for it. */
  lemma ReturnPaysTwice(env: Env, w: seq<Settled>, i: nat, block: nat, n: nat) returns (txs: seq<Tx>)
    requires Returns(env, w, i, block, n)
    ensures Ordered(0, txs) && !DistinctUnlessCollision(env, Run(env, Deployed(), txs).settled)
  {
    ReturnRepeats(env, w, i, block, n);
    var more := w + [Again(w, i, block, n)];
    txs := WalkIsARun(env, more, 0);
    assert DigestOf(env, more[i]) == DigestOf(env, more[|w|]);
  }

  /**
    The exact condition under which no digest is ever paid twice, over all runs:
    no accepted walk from the zero root comes back to a root it started a
    settlement from while the block hash of that settlement is still to be had.
  */
  lemma PaidOnceIffNoReturn(env: Env)
    ensures (forall txs :: Ordered(0, txs) ==> DistinctUnlessCollision(env, Run(env, Deployed(), txs).settled))
       <==> NoWalkReturns(env)
  {
    if NoWalkReturns(env) {
      forall txs | Ordered(0, txs) ensures DistinctUnlessCollision(env, Run(env, Deployed(), txs).settled) {
        DigestPaidOnce(env, txs);
      }
    } else {
      var w, i: nat, block: nat, n: nat :| Returns(env, w, i, block, n);
      var txs := ReturnPaysTwice(env, w, i, block, n);
    }
  }

  // The accepted prevRoot -> newRoot edges have no cycle: some rank rises along each.
  ghost predicate Acyclic(env: Env, rank: Word -> nat) {
    forall r :: Accepted(env, r) ==> rank(r.request.prevRoot) < rank(r.request.newRoot)
  }

  lemma {:induction false} RankRises(env: Env, w: seq<Settled>, i: nat, rank: Word -> nat)
    requires Acyclic(env, rank) && IsWalk(env, w) && i < |w|
    ensures rank(w[i].request.prevRoot) < rank(EndRoot(w))
    decreases |w|
  {
    var front, last := w[..|w| - 1], w[|w| - 1];
    assert Accepted(env, last);
    if i < |front| {
      RankRises(env, front, i, rank);
    }
  }

  /** Acyclic edges are enough, whatever the block hashes. */
  lemma AcyclicNeverReturns(env: Env, rank: Word -> nat)
    requires Acyclic(env, rank)
    ensures NoWalkReturns(env)
  {
    forall w, i: nat, block: nat, n: nat ensures !Returns(env, w, i, block, n) {
      if Returns(env, w, i, block, n) {
        RankRises(env, w, i, rank);
      }
    }
  }

  // What a settlement hashes, field by field.
  function Hashed(env: Env, block: nat, request: Request): PublicInputs {
    var n := request.blockNumber;
    PublicInputs(request.blobs, request.prevRoot, request.newRoot, request.totalEtherPaid,
                 if n < block <= n + 256 then env.hashOf(n) else seq(32, _ => 0), request.sender)
  }

  // No other preimage has the digest of these inputs.
  ghost predicate OnlyPreimage(env: Env, p: PublicInputs) {
    forall q: PublicInputs :: env.keccak(ContractPreimage(q)) == env.keccak(ContractPreimage(p)) ==>
      ContractPreimage(q) == ContractPreimage(p)
  }

  /**
    A proof that the verifier accepts only for the digest of `p` settles only
    requests with the references, roots, amount and sender of `p`: nobody else
    can use it.
  */
  lemma ProofSettlesOnlyItsInputs(
    env: Env, block: nat, s: State, request: Request, proof: seq<byte>, onPay: seq<Call>, payeeReverts: bool,
    p: PublicInputs
  )
    requires forall digest :: env.verify(proof, digest) ==> digest == env.keccak(ContractPreimage(p))
    requires OnlyPreimage(env, p)
    requires Exec(env, block, s, Settle(request, proof, onPay, payeeReverts)).1
    ensures request.sender == p.sender && request.totalEtherPaid == p.totalEtherPaid && request.blobs == p.blobs
    ensures request.prevRoot == p.prevRoot == s.root && request.newRoot == p.newRoot
    ensures Hashed(env, block, request).blockHash == p.blockHash
  {
    PreimageInjective(Hashed(env, block, request), p);
  }

  /** Two settlements with one digest, collisions aside, are of the same references, roots, amount and sender. */
  lemma OneDigestOneRequest(env: Env, a: Settled, b: Settled)
    requires DigestOf(env, a) == DigestOf(env, b) && OnlyPreimage(env, Hashed(env, a.block, a.request))
    ensures a.request.sender == b.request.sender && a.request.totalEtherPaid == b.request.totalEtherPaid
    ensures a.request.blobs == b.request.blobs
    ensures a.request.prevRoot == b.request.prevRoot && a.request.newRoot == b.request.newRoot
  {
    PreimageInjective(Hashed(env, b.block, b.request), Hashed(env, a.block, a.request));
  }

  // The call went through and settled the inputs of `earlier` once more.
  ghost predicate SettlesAgain(env: Env, s: State, outcome: (State, bool), earlier: Settled) {
    outcome.1 && s.settled < outcome.0.settled && SameInputs(env, outcome.0.settled[|s.settled|], earlier)
  }

  /**
    The exact condition for settling an earlier request again, at any later
    moment, also while a recipient is being paid: the root is back at its
    `prevRoot`, its block hash is unchanged, the contract can pay, and the
    recipient does not revert.
  */
  lemma ReplayAcceptedIff(env: Env, block: nat, s: State, i: nat, onPay: seq<Call>, payeeReverts: bool)
    requires Inv(env, block, s) && i < |s.settled|
    ensures var r := s.settled[i];
      SettlesAgain(env, s, Exec(env, block, s, Settle(r.request, r.proof, onPay, payeeReverts)), r) <==>
        && s.root == r.request.prevRoot
        && BlockHash(env, block, r.request.blockNumber) == BlockHash(env, r.block, r.request.blockNumber)
        && s.ether >= r.request.totalEtherPaid && !payeeReverts
  {
    var r := s.settled[i];
    var call := Settle(r.request, r.proof, onPay, payeeReverts);
    var again := Settled(block, r.request, r.proof);
    if Exec(env, block, s, call).1 {
      PaidKeeps(env, s, again);
      ExecAllKeeps(env, block, Paid(s, again), onPay);
      assert Paid(s, again).settled[|s.settled|] == again;
    } else {
      WalkAt(env, s.settled, i);
      assert SameInputs(env, again, r) ==> Accepted(env, again);
    }
  }

  lemma OneCall(env: Env, block: nat, s: State, c: Call)
    ensures ExecAll(env, block, s, [c]) == Exec(env, block, s, c).0
  {
    var t := Exec(env, block, s, c).0;
    assert [c][1..] == [];
    assert ExecAll(env, block, t, []) == t;
  }

  /**
    The exact condition for a reentrant call to reuse the proof that is being
    paid for: the request does not move the root, and the ether covers both payments.
  */
  lemma ReentrantReuseIff(env: Env, s: State, r: Settled)
    requires r.request.prevRoot == s.root && Accepted(env, r) && s.ether >= r.request.totalEtherPaid
    ensures var twice := r.request.newRoot == r.request.prevRoot && s.ether >= 2 * r.request.totalEtherPaid;
      var t := Exec(env, r.block, s, Settle(r.request, r.proof, [Alone(r).call], false)).0;
      && t.settled == s.settled + (if twice then [r, r] else [r])
      && t.ether == s.ether - (if twice then 2 else 1) * r.request.totalEtherPaid
  {
    var paid, inner := Paid(s, r), Alone(r).call;
    OneCall(env, r.block, paid, inner);
    if paid.root == r.request.prevRoot && paid.ether >= r.request.totalEtherPaid {
      SettleAlone(env, paid, r);
      assert s.settled + [r] + [r] == s.settled + [r, r];
    }
  }

  // A request from zero to zero that pays `amount`.
  function StayAtZero(amount: U256): Request {
    Request([], Zero(), Zero(), amount, 0, seq(20, _ => 0))
  }

  lemma FirstDeposit(env: Env, block: nat, who: Address, value: nat) returns (s: State)
    requires value < U256_LIMIT
    ensures s == Exec(env, block, Deployed(), Deposit(who, value)).0
    ensures s.ether == value && s.root == Zero() && s.settled == []
  {
    s := Exec(env, block, Deployed(), Deposit(who, value)).0;
  }

  lemma PaidTwice(r: Settled)
    ensures [] + [r, r] == [r, r] && TotalPaid([r, r]) == 2 * r.request.totalEtherPaid
  {
    assert [] + [r] == [r] && [r] + [r] == [r, r];
    TotalPaidAppend([], r);
    TotalPaidAppend([r], r);
  }

  lemma TwoTxs(env: Env, s: State, txs: seq<Tx>)
    requires |txs| == 2
    ensures Run(env, s, txs) == Exec(env, txs[1].block, Exec(env, txs[0].block, s, txs[0].call).0, txs[1].call).0
  {
    var mid := Exec(env, txs[0].block, s, txs[0].call).0;
    var rest := txs[1..];
    assert rest[0] == txs[1] && rest[1..] == [];
    assert Run(env, mid, rest) == Run(env, Exec(env, txs[1].block, mid, txs[1].call).0, []);
  }

  /**
    The claim that a reentrant call needs a fresh proof fails: whatever the hash
    function and the chain, with a verifier that accepts, two ether deposited and
    a request that leaves the root at zero, one transaction pays one digest twice.
  */
  lemma ReentrantCallReusesProof(keccak: seq<byte> -> Word, hashOf: nat -> Word) returns (env: Env, txs: seq<Tx>)
    ensures env.keccak == keccak && env.hashOf == hashOf && Ordered(0, txs)
    ensures var r := Settled(1, StayAtZero(1), []);
      && txs == [Tx(1, Deposit(r.request.sender, 2)), Tx(1, Settle(r.request, r.proof, [Alone(r).call], false))]
      && var s := Run(env, Deployed(), txs);
         s.settled == [r, r] && TotalPaid(s.settled) == 2 && s.ether == 0
  {
    env := Env(keccak, (_, _) => true, hashOf);
    var r := Settled(1, StayAtZero(1), []);
    txs := [Tx(1, Deposit(r.request.sender, 2)), Tx(1, Settle(r.request, r.proof, [Alone(r).call], false))];
    var s := FirstDeposit(env, 1, r.request.sender, 2);
    TwoTxs(env, Deployed(), txs);
    ReentrantReuseIff(env, s, r);
    PaidTwice(r);
  }

  // ---- the contract ---------------------------------------------------------

  class OpenBlob {
    const env: Env
    var balances: map<Address, nat>
    var openBlobRoot: Word
    var ether: nat
    ghost var forced: nat
    ghost var settled: seq<Settled>
    ghost var events: seq<Settled>

    ghost function View(): State
      reads this
    {
      State(balances, openBlobRoot, ether, forced, settled, events)
    }

    constructor (verifier: Env)
      ensures env == verifier && View() == Deployed() && Inv(env, 0, View())
    {
      env := verifier;
      balances, openBlobRoot, ether := map[], seq(32, _ => 0), 0;
      forced, settled, events := 0, [], [];
    }

    // Checked addition: an overflowing credit reverts and returns the value.
    method DepositFor(block: nat, beneficiary: Address, value: nat) returns (ok: bool)
      modifies this
      ensures (View(), ok) == Exec(env, block, old(View()), Deposit(beneficiary, value))
      ensures ok <==> (if beneficiary in old(balances) then old(balances)[beneficiary] else 0) + value < U256_LIMIT
      ensures !ok ==> View() == old(View())
      ensures ok ==>
        && beneficiary in balances && ether == old(ether) + value
        && balances[beneficiary] == (if beneficiary in old(balances) then old(balances)[beneficiary] else 0) + value
      ensures forall a :: a != beneficiary ==>
        (a in balances <==> a in old(balances)) && (a in balances ==> balances[a] == old(balances)[a])
      ensures openBlobRoot == old(openBlobRoot) && settled == old(settled) && events == old(events)
    {
      var total := At(balances, beneficiary) + value;
      if total >= U256_LIMIT {
        return false;
      }
      ether := ether + value;
      balances := balances[beneficiary := total];
      return true;
    }

    // `onPay` runs between the payment and the event; a failed transfer reverts everything.
    method ProofBlobDA(block: nat, request: Request, proof: seq<byte>, onPay: seq<Call>, payeeReverts: bool)
      returns (ok: bool)
      modifies this
      ensures (View(), ok) == Exec(env, block, old(View()), Settle(request, proof, onPay, payeeReverts))
      ensures var n := request.blockNumber;
        var hash: Word := if n < block <= n + 256 then env.hashOf(n) else seq(32, _ => 0);
        ok <==>
          && request.prevRoot == old(openBlobRoot)
          && env.verify(proof, env.keccak(ContractPreimage(PublicInputs(
               request.blobs, request.prevRoot, request.newRoot, request.totalEtherPaid, hash, request.sender))))
          && old(ether) >= request.totalEtherPaid && !payeeReverts
      ensures !ok ==> View() == old(View())
      ensures ok ==>
        var r := Settled(block, request, proof);
        var paid := old(View()).(
          root := request.newRoot, ether := old(ether) - request.totalEtherPaid, settled := old(settled) + [r]);
        var after := ExecAll(env, block, paid, onPay);
        View() == after.(events := after.events + [r])
      decreases onPay, 2
    {
      var currentRoot := openBlobRoot;
      if request.prevRoot != currentRoot {
        return false;
      }
      var publicInputsHash := env.keccak(ContractPreimage(PublicInputs(
        request.blobs, request.prevRoot, request.newRoot, request.totalEtherPaid,
        BlockHash(env, block, request.blockNumber), request.sender)));
      if !env.verify(proof, publicInputsHash) {
        return false;
      }
      ghost var record := Settled(block, request, proof);
      ghost var earlier := settled;
      openBlobRoot := request.newRoot;
      settled := settled + [record];
      var sent := Pay(block, request.totalEtherPaid, onPay, payeeReverts);
      if !sent {
        // The revert undoes the rotation.
        openBlobRoot := currentRoot;
        settled := earlier;
        return false;
      }
      events := events + [record];
      return true;
    }

    // The transfer with its callback; if it fails, nothing of it remains.
    method Pay(block: nat, amount: nat, onPay: seq<Call>, payeeReverts: bool) returns (sent: bool)
      modifies this
      ensures sent <==> old(ether) >= amount && !payeeReverts
      ensures !sent ==> View() == old(View())
      ensures sent ==> View() == ExecAll(env, block, old(View()).(ether := old(ether) - amount), onPay)
      decreases onPay, 1
    {
      if ether < amount {
        return false;
      }
      var savedBalances, savedRoot, savedEther := balances, openBlobRoot, ether;
      ghost var savedForced, savedSettled, savedEvents := forced, settled, events;
      ether := ether - amount;
      Interact(block, onPay);
      if payeeReverts {
        balances, openBlobRoot, ether := savedBalances, savedRoot, savedEther;
        forced, settled, events := savedForced, savedSettled, savedEvents;
        return false;
      }
      return true;
    }

    // Whatever outside code does: each interaction in turn, failed ones ignored.
    method Interact(block: nat, calls: seq<Call>)
      modifies this
      ensures View() == ExecAll(env, block, old(View()), calls)
      decreases calls, 0
    {
      if calls == [] {
        return;
      }
      match calls[0] {
        case Deposit(who, value) =>
          var _ := DepositFor(block, who, value);
        case Settle(request, proof, onPay, payeeReverts) =>
          var _ := ProofBlobDA(block, request, proof, onPay, payeeReverts);
        case Frame(inner, reverts) =>
          var savedBalances, savedRoot, savedEther := balances, openBlobRoot, ether;
          ghost var savedForced, savedSettled, savedEvents := forced, settled, events;
          Interact(block, inner);
          if reverts {
            balances, openBlobRoot, ether := savedBalances, savedRoot, savedEther;
            forced, settled, events := savedForced, savedSettled, savedEvents;
          }
        case Force(amount) =>
          ether, forced := ether + amount, forced + amount;
      }
      Interact(block, calls[1..]);
    }
  }
}
