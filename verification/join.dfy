// The two-stream join of Query 2, one client: batches wait until the bank table is
// complete, are joined in the order they came, and from then on joined on arrival.
module Join {
  import opened Bytes
  import opened Dedup
  import opened Positions

  datatype Tx = Tx(fromBank: string, fromAccount: string, amountPaid: Bytes)

  datatype Row = Row(fromBank: string, fromAccount: string, bankName: string, amountPaid: Bytes)

  /** A transaction batch and the id its result's id is derived from. */
  datatype TxBatch = TxBatch(id: MsgId, txs: seq<Tx>)

  /** What is published: the rows joined from one input batch, or the terminal EOF. */
  datatype Output = Result(input: MsgId, rows: seq<Row>) | Query2Eof

  type BankTable = map<string, string>

  datatype State = State(bankNames: BankTable, cache: seq<TxBatch>, workerEofs: nat, accountsEof: bool, finalized: bool)

  const EMPTY := State(map[], [], 0, false, false)

  /** The first name a bank is given wins. */
  function Named(table: BankTable, bank: (string, string)): BankTable {
    if bank.0 in table then table else table[bank.0 := bank.1]
  }

  function NamedAll(table: BankTable, banks: seq<(string, string)>): BankTable {
    if banks == [] then table else Named(NamedAll(table, banks[..|banks| - 1]), banks[|banks| - 1])
  }

  /** The rows of the transactions whose bank is known, in order. */
  function Rows(txs: seq<Tx>, table: BankTable): seq<Row> {
    if txs == [] then []
    else
      var tx := txs[|txs| - 1];
      Rows(txs[..|txs| - 1], table)
      + if tx.fromBank in table then [Row(tx.fromBank, tx.fromAccount, table[tx.fromBank], tx.amountPaid)] else []
  }

  /** joinAndEmit: a batch without any known bank is dropped. */
  function Joined(b: TxBatch, table: BankTable): seq<Output> {
    var rows := Rows(b.txs, table);
    if rows == [] then [] else [Result(b.id, rows)]
  }

  function JoinedAll(batches: seq<TxBatch>, table: BankTable): seq<Output> {
    if batches == [] then [] else JoinedAll(batches[..|batches| - 1], table) + Joined(batches[|batches| - 1], table)
  }

  // ---------------------------------------------------------------- what a join is

  /** One row for each of these transactions, in order: its bank, account and amount, and a name of that bank. */
  ghost predicate RowsFor(txs: seq<Tx>, named: (string, string) -> bool, rows: seq<Row>, at: seq<nat>) {
    && |at| == |rows|
    && forall i :: 0 <= i < |at| ==>
         && at[i] < |txs|
         && rows[i].fromBank == txs[at[i]].fromBank && rows[i].fromAccount == txs[at[i]].fromAccount
         && rows[i].amountPaid == txs[at[i]].amountPaid && named(txs[at[i]].fromBank, rows[i].bankName)
  }

  ghost function HasName(named: (string, string) -> bool): Tx -> bool {
    (tx: Tx) => exists name :: named(tx.fromBank, name)
  }

  /** The rows of exactly the transactions whose bank has a name. */
  ghost predicate IsJoin(txs: seq<Tx>, named: (string, string) -> bool, rows: seq<Row>) {
    exists at: seq<nat> :: Picks(txs, HasName(named), at) && RowsFor(txs, named, rows, at)
  }

  ghost predicate AnyNamed(b: TxBatch, named: (string, string) -> bool) {
    exists tx <- b.txs :: HasName(named)(tx)
  }

  /** The result of a batch: under its id, with at least one row. */
  ghost predicate IsResult(b: TxBatch, named: (string, string) -> bool, o: Output) {
    o.Result? && o.input == b.id && o.rows != [] && IsJoin(b.txs, named, o.rows)
  }

  ghost function InTable(table: BankTable): (string, string) -> bool {
    (bank: string, name: string) => bank in table && table[bank] == name
  }

  lemma NamedInTable(table: BankTable, tx: Tx)
    ensures HasName(InTable(table))(tx) <==> tx.fromBank in table
    ensures tx.fromBank in table ==> InTable(table)(tx.fromBank, table[tx.fromBank])
  {
    if tx.fromBank in table {
      assert InTable(table)(tx.fromBank, table[tx.fromBank]);
    }
  }

  lemma RowsForSnoc(txs: seq<Tx>, tx: Tx, named: (string, string) -> bool, rows: seq<Row>, at: seq<nat>, name: string)
    requires RowsFor(txs, named, rows, at)
    ensures RowsFor(txs + [tx], named, rows, at)
    ensures named(tx.fromBank, name) ==>
              RowsFor(txs + [tx], named, rows + [Row(tx.fromBank, tx.fromAccount, name, tx.amountPaid)], at + [|txs|])
  {
    var all := txs + [tx];
    assert forall i :: 0 <= i < |at| ==> at[i] < |txs| && all[at[i]] == txs[at[i]];
  }

  lemma {:induction false} RowsAreJoin(txs: seq<Tx>, table: BankTable) returns (at: seq<nat>)
    ensures Picks(txs, HasName(InTable(table)), at) && RowsFor(txs, InTable(table), Rows(txs, table), at)
  {
    hide HasName, InTable, RowsFor, Picks;
    if txs == [] {
      PicksNone(HasName(InTable(table)));
      at := [];
      NoRows(InTable(table));
    } else {
      var init, tx := txs[..|txs| - 1], txs[|txs| - 1];
      assert init + [tx] == txs;
      var front := RowsAreJoin(init, table);
      NamedInTable(table, tx);
      PicksSnoc(init, tx, HasName(InTable(table)), front);
      RowsForSnoc(init, tx, InTable(table), Rows(init, table), front,
                  if tx.fromBank in table then table[tx.fromBank] else "");
      at := if tx.fromBank in table then front + [|init|] else front;
      assert Rows(init, table) + [] == Rows(init, table);
    }
  }

  lemma NoRows(named: (string, string) -> bool)
    ensures RowsFor([], named, [], [])
  {
  }

  /** joinAndEmit emits the result of a batch that has one, and nothing otherwise. */
  lemma JoinedIsResult(b: TxBatch, table: BankTable)
    ensures AnyNamed(b, InTable(table)) ==> |Joined(b, table)| == 1 && IsResult(b, InTable(table), Joined(b, table)[0])
    ensures !AnyNamed(b, InTable(table)) ==> Joined(b, table) == []
  {
    var at := RowsAreJoin(b.txs, table);
    hide Rows, InTable, HasName;
    PicksAny(b.txs, HasName(InTable(table)), at);
    assert |at| == |Rows(b.txs, table)|;
    hide Picks, RowsFor;
  }

  // ---------------------------------------------------------------- handlers

  datatype Message =
    | AccountsBatch(banks: seq<(string, string)>)
    | AccountsEof
    | Transactions(batch: TxBatch)
    | TransactionsEof

  function Finalized(p: nat, s: State): (State, seq<Output>) {
    if !s.finalized && s.workerEofs == p && s.accountsEof then (State(map[], [], 0, false, true), [Query2Eof])
        else (s, [])
  }

  function Handle(p: nat, s: State, m: Message): (State, seq<Output>) {
    match m
    case AccountsBatch(banks) => (s.(bankNames := NamedAll(s.bankNames, banks)), [])
    case AccountsEof =>
      var (s', eof) := Finalized(p, s.(accountsEof := true, cache := []));
      (s', JoinedAll(s.cache, s.bankNames) + eof)
    case Transactions(b) =>
      if s.accountsEof then (s, Joined(b, s.bankNames)) else (s.(cache := s.cache + [b]), [])
    case TransactionsEof => Finalized(p, s.(workerEofs := s.workerEofs + 1))
  }

  class Joiner {
    const previousWorkers: nat
    var s: State

    constructor (previousWorkers: nat)
      ensures this.previousWorkers == previousWorkers && s == EMPTY
    {
      this.previousWorkers := previousWorkers;
      s := EMPTY;
    }

    method JoinAndEmit(b: TxBatch) returns (out: seq<Output>)
      ensures out == Joined(b, s.bankNames)
      ensures AnyNamed(b, InTable(s.bankNames)) ==> |out| == 1 && IsResult(b, InTable(s.bankNames), out[0])
      ensures !AnyNamed(b, InTable(s.bankNames)) ==> out == []
    {
      JoinedIsResult(b, s.bankNames);
      hide AnyNamed, IsResult, InTable;
      var rows: seq<Row> := [];
      for i := 0 to |b.txs|
        invariant rows == Rows(b.txs[..i], s.bankNames)
      {
        assert b.txs[..i + 1][..i] == b.txs[..i];
        var tx := b.txs[i];
        if tx.fromBank in s.bankNames {
          rows := rows + [Row(tx.fromBank, tx.fromAccount, s.bankNames[tx.fromBank], tx.amountPaid)];
        }
      }
      assert b.txs[..|b.txs|] == b.txs;
      out := if |rows| == 0 then [] else [Result(b.id, rows)];
    }

    method HandleAccountsBatch(banks: seq<(string, string)>) returns (out: seq<Output>)
      modifies this
      ensures (s, out) == Handle(previousWorkers, old(s), AccountsBatch(banks))
    {
      out := [];
      var table := s.bankNames;
      for i := 0 to |banks|
        invariant table == NamedAll(s.bankNames, banks[..i])
      {
        assert banks[..i + 1][..i] == banks[..i];
        if banks[i].0 !in table {
          table := table[banks[i].0 := banks[i].1];
        }
      }
      assert banks[..|banks|] == banks;
      s := s.(bankNames := table);
    }

    method HandleAccountsEof() returns (out: seq<Output>)
      modifies this
      ensures (s, out) == Handle(previousWorkers, old(s), AccountsEof)
    {
      s := s.(accountsEof := true);
      out := [];
      for i := 0 to |s.cache|
        invariant s == old(s).(accountsEof := true)
        invariant out == JoinedAll(s.cache[..i], s.bankNames)
      {
        assert s.cache[..i + 1][..i] == s.cache[..i];
        var results := JoinAndEmit(s.cache[i]);
        out := out + results;
      }
      assert s.cache[..|s.cache|] == s.cache;
      s := s.(cache := []);
      var eof := FinalizeIfDone();
      out := out + eof;
    }

    method HandleTransactionBatch(b: TxBatch) returns (out: seq<Output>)
      modifies this
      ensures (s, out) == Handle(previousWorkers, old(s), Transactions(b))
    {
      if !s.accountsEof {
        s := s.(cache := s.cache + [b]);
        return [];
      }
      out := JoinAndEmit(b);
    }

    method HandleTransactionsEof() returns (out: seq<Output>)
      modifies this
      ensures (s, out) == Handle(previousWorkers, old(s), TransactionsEof)
    {
      s := s.(workerEofs := s.workerEofs + 1);
      out := FinalizeIfDone();
    }

    /** shouldFinalize, then finalizeClient. */
    method FinalizeIfDone() returns (out: seq<Output>)
      modifies this
      ensures (s, out) == Finalized(previousWorkers, old(s))
    {
      if s.finalized || s.workerEofs != previousWorkers || !s.accountsEof {
        return [];
      }
      s := s.(finalized := true);
      s := State(map[], [], 0, false, true);
      return [Query2Eof];
    }
  }

  // ---------------------------------------------------------------- streams

  function Run(p: nat, msgs: seq<Message>): (State, seq<Output>) {
    if msgs == [] then (EMPTY, [])
    else
      var (s, out) := Run(p, msgs[..|msgs| - 1]);
      var (s', more) := Handle(p, s, msgs[|msgs| - 1]);
      (s', out + more)
  }

  /** One order in which two streams may arrive. */
  ghost predicate IsMerge(m: seq<Message>, a: seq<Message>, t: seq<Message>)
    decreases |m|
  {
    if m == [] then a == [] && t == []
    else
      var n := |m| - 1;
      || (a != [] && a[|a| - 1] == m[n] && IsMerge(m[..n], a[..|a| - 1], t))
      || (t != [] && t[|t| - 1] == m[n] && IsMerge(m[..n], a, t[..|t| - 1]))
  }

  /** Account batches, then their EOF. */
  ghost predicate AccountStream(a: seq<Message>) {
    && a != [] && a[|a| - 1] == AccountsEof
    && forall i :: 0 <= i < |a| - 1 ==> a[i].AccountsBatch?
  }

  function Eofs(t: seq<Message>): nat {
    if t == [] then 0 else Eofs(t[..|t| - 1]) + if t[|t| - 1].TransactionsEof? then 1 else 0
  }

  /** Transaction batches and one EOF from each of `p` workers, the last message being an EOF. */
  ghost predicate TransactionStream(p: nat, t: seq<Message>) {
    && t != [] && t[|t| - 1] == TransactionsEof && Eofs(t) == p
    && forall m <- t :: m.Transactions? || m.TransactionsEof?
  }

  function BatchesIn(t: seq<Message>): seq<TxBatch> {
    if t == [] then []
    else BatchesIn(t[..|t| - 1]) + if t[|t| - 1].Transactions? then [t[|t| - 1].batch] else []
  }

  function TableOf(a: seq<Message>): BankTable {
    if a == [] then map[]
    else if a[|a| - 1].AccountsBatch? then NamedAll(TableOf(a[..|a| - 1]), a[|a| - 1].banks)
    else TableOf(a[..|a| - 1])
  }

  lemma {:induction false} EofsBelow(t: seq<Message>, k: nat)
    requires k < |t| && t[|t| - 1].TransactionsEof?
    ensures Eofs(t[..k]) < Eofs(t)
    decreases |t|
  {
    EofsMonotone(t[..|t| - 1], k);
    assert t[..|t| - 1][..k] == t[..k];
  }

  lemma {:induction false} EofsMonotone(t: seq<Message>, k: nat)
    requires k <= |t|
    ensures Eofs(t[..k]) <= Eofs(t)
    decreases |t|
  {
    if k < |t| {
      EofsMonotone(t[..|t| - 1], k);
      assert t[..|t| - 1][..k] == t[..k];
    } else {
      assert t[..k] == t;
    }
  }

  /** After `i` messages of the accounts stream and `k` of the transactions, in whatever order. */
  ghost predicate After(p: nat, a: seq<Message>, t: seq<Message>, i: nat, k: nat, s: State, out: seq<Output>)
    requires i <= |a| && k <= |t|
  {
    if i < |a| then s == State(TableOf(a[..i]), BatchesIn(t[..k]), Eofs(t[..k]), false, false) && out == []
    else if k < |t| then
      && s == State(TableOf(a), [], Eofs(t[..k]), true, false)
      && out == JoinedAll(BatchesIn(t[..k]), TableOf(a))
    else
      && s == State(map[], [], 0, false, true)
      && out == JoinedAll(BatchesIn(t), TableOf(a)) + [Query2Eof]
  }

  lemma {:induction false} MergedState(p: nat, a: seq<Message>, t: seq<Message>, m: seq<Message>, i: nat, k: nat)
    requires AccountStream(a) && TransactionStream(p, t) && i <= |a| && k <= |t|
    requires IsMerge(m, a[..i], t[..k])
    ensures After(p, a, t, i, k, Run(p, m).0, Run(p, m).1)
    decreases |m|
  {
    if m == [] {
      assert i == 0 && k == 0;
    } else {
      var n := |m| - 1;
      if i > 0 && a[i - 1] == m[n] && IsMerge(m[..n], a[..i][..i - 1], t[..k]) {
        assert a[..i][..i - 1] == a[..i - 1];
        MergedState(p, a, t, m[..n], i - 1, k);
        AccountStep(p, a, t, i - 1, k, Run(p, m[..n]).0, Run(p, m[..n]).1);
      } else {
        assert t[..k][..k - 1] == t[..k - 1];
        MergedState(p, a, t, m[..n], i, k - 1);
        TransactionStep(p, a, t, i, k - 1, Run(p, m[..n]).0, Run(p, m[..n]).1);
      }
    }
  }

  lemma AccountStep(p: nat, a: seq<Message>, t: seq<Message>, i: nat, k: nat, s: State, out: seq<Output>)
    requires AccountStream(a) && TransactionStream(p, t) && i < |a| && k <= |t| && After(p, a, t, i, k, s, out)
    ensures var (s', more) := Handle(p, s, a[i]); After(p, a, t, i + 1, k, s', out + more)
  {
    assert a[..i + 1][..i] == a[..i] && a[..|a|] == a && t[..|t|] == t;
    if i == |a| - 1 && k < |t| {
      EofsBelow(t, k);
    }
  }

  lemma BatchStep(p: nat, a: seq<Message>, t: seq<Message>, i: nat, k: nat, s: State, out: seq<Output>)
    requires TransactionStream(p, t) && i <= |a| && k < |t| && After(p, a, t, i, k, s, out) && t[k].Transactions?
    ensures var (s', more) := Handle(p, s, t[k]); After(p, a, t, i, k + 1, s', out + more)
  {
    hide JoinedAll, TableOf, Joined;
    var b := t[k].batch;
    assert t[..k + 1][..k] == t[..k] && t[..k + 1][k] == t[k];
    assert BatchesIn(t[..k + 1]) == BatchesIn(t[..k]) + [b] && Eofs(t[..k + 1]) == Eofs(t[..k]);
    hide BatchesIn, Eofs;
    assert k + 1 < |t|;
    JoinedSnoc(BatchesIn(t[..k]), b, TableOf(a));
  }

  lemma EofStep(p: nat, a: seq<Message>, t: seq<Message>, i: nat, k: nat, s: State, out: seq<Output>)
    requires TransactionStream(p, t) && i <= |a| && k < |t| && After(p, a, t, i, k, s, out) && t[k].TransactionsEof?
    ensures var (s', more) := Handle(p, s, t[k]); After(p, a, t, i, k + 1, s', out + more)
  {
    hide JoinedAll, TableOf, Joined;
    assert t[..k + 1][..k] == t[..k] && t[..k + 1][k] == t[k] && t[..|t|] == t;
    assert BatchesIn(t[..k + 1]) == BatchesIn(t[..k]) && Eofs(t[..k + 1]) == Eofs(t[..k]) + 1;
    if k + 1 < |t| {
      EofsBelow(t, k + 1);
    }
    hide BatchesIn, Eofs;
  }

  lemma TransactionStep(p: nat, a: seq<Message>, t: seq<Message>, i: nat, k: nat, s: State, out: seq<Output>)
    requires TransactionStream(p, t) && i <= |a| && k < |t| && After(p, a, t, i, k, s, out)
    ensures var (s', more) := Handle(p, s, t[k]); After(p, a, t, i, k + 1, s', out + more)
  {
    hide After, Handle;
    assert t[k] in t;
    if t[k].Transactions? {
      BatchStep(p, a, t, i, k, s, out);
    } else {
      EofStep(p, a, t, i, k, s, out);
    }
  }

  lemma JoinedSnoc(batches: seq<TxBatch>, b: TxBatch, table: BankTable)
    ensures JoinedAll(batches + [b], table) == JoinedAll(batches, table) + Joined(b, table)
  {
    assert (batches + [b])[..|batches|] == batches;
  }

  /** Interleaving independence: for every merge of the two streams the output is the same sequence, the
      join of every batch with the complete first-wins table, in order, and then the EOF, once. */
  lemma InterleavingIndependence(p: nat, a: seq<Message>, t: seq<Message>, m: seq<Message>)
    requires AccountStream(a) && TransactionStream(p, t) && IsMerge(m, a, t)
    ensures Run(p, m).1 == JoinedAll(BatchesIn(t), TableOf(a)) + [Query2Eof]
    ensures Run(p, m).0.finalized
  {
    assert a[..|a|] == a && t[..|t|] == t;
    MergedState(p, a, t, m, |a|, |t|);
  }

  /** First wins: the table names a bank as its first mention does. */
  lemma {:induction false} FirstMentionWins(banks: seq<(string, string)>, b: string)
    ensures b in NamedAll(map[], banks) <==> exists i :: 0 <= i < |banks| && banks[i].0 == b
    ensures forall i :: 0 <= i < |banks| && banks[i].0 == b && (forall j :: 0 <= j < i ==> banks[j].0 != b) ==>
              b in NamedAll(map[], banks) && NamedAll(map[], banks)[b] == banks[i].1
  {
    if banks != [] {
      FirstMentionWins(banks[..|banks| - 1], b);
    }
  }

  /** Somewhere in the account stream the bank is named, and there is the first mention of it. */
  ghost predicate Mentioned(a: seq<Message>, i: nat, j: nat, bank: string) {
    i < |a| && a[i].AccountsBatch? && j < |a[i].banks| && a[i].banks[j].0 == bank
  }

  ghost predicate FirstMention(a: seq<Message>, i: nat, j: nat, bank: string) {
    && Mentioned(a, i, j, bank)
    && forall k: nat, l: nat :: Mentioned(a, k, l, bank) ==> i < k || (i == k && j <= l)
  }

  /** The name the account stream gives the bank first. */
  ghost function FirstNames(a: seq<Message>): (string, string) -> bool {
    (bank: string, name: string) => exists i: nat, j: nat :: FirstMention(a, i, j, bank) && a[i].banks[j].1 == name
  }

  lemma {:induction false} NamedAllIs(table: BankTable, banks: seq<(string, string)>, b: string)
    ensures b in table ==> b in NamedAll(table, banks) && NamedAll(table, banks)[b] == table[b]
    ensures b !in table ==>
              (b in NamedAll(table, banks) <==> b in NamedAll(map[], banks))
              && (b in NamedAll(map[], banks) ==> NamedAll(table, banks)[b] == NamedAll(map[], banks)[b])
  {
    if banks != [] {
      NamedAllIs(table, banks[..|banks| - 1], b);
    }
  }

  lemma FirstIn(banks: seq<(string, string)>, b: string) returns (j: nat)
    requires exists i :: 0 <= i < |banks| && banks[i].0 == b
    ensures j < |banks| && banks[j].0 == b && forall i :: 0 <= i < j ==> banks[i].0 != b
  {
    j := 0;
    while banks[j].0 != b
      invariant j < |banks| && forall i :: 0 <= i < j ==> banks[i].0 != b
      decreases |banks| - j
    {
      j := j + 1;
    }
  }

  /** The table holds a bank exactly if it is mentioned, under the name of its first mention. */
  lemma {:induction false} TableIsFirst(a: seq<Message>, b: string)
    ensures b !in TableOf(a) ==> forall i: nat, j: nat :: !Mentioned(a, i, j, b)
    ensures b in TableOf(a) ==> exists i: nat, j: nat :: FirstMention(a, i, j, b) && a[i].banks[j].1 == TableOf(a)[b]
  {
    if a != [] {
      var n, init := |a| - 1, a[..|a| - 1];
      TableIsFirst(init, b);
      MentionsOn(a, b);
      if a[n].AccountsBatch? {
        hide NamedAll;
        NamedAllIs(TableOf(init), a[n].banks, b);
        FirstMentionWins(a[n].banks, b);
        if b in TableOf(init) {
          var i: nat, j: nat :| FirstMention(init, i, j, b) && init[i].banks[j].1 == TableOf(init)[b];
          assert FirstMention(a, i, j, b);
        } else if b in TableOf(a) {
          var j := FirstIn(a[n].banks, b);
          assert FirstMention(a, n, j, b);
        }
      } else if b in TableOf(a) {
        var i: nat, j: nat :| FirstMention(init, i, j, b) && init[i].banks[j].1 == TableOf(init)[b];
        assert FirstMention(a, i, j, b);
      }
    }
  }

  lemma MentionsOn(a: seq<Message>, b: string)
    requires a != []
    ensures forall i: nat, j: nat ::
              Mentioned(a, i, j, b) <==> Mentioned(a[..|a| - 1], i, j, b) || (i == |a| - 1 && Mentioned(a, i, j, b))
  {
  }

  lemma NamesAre(a: seq<Message>, bank: string, name: string)
    ensures InTable(TableOf(a))(bank, name) <==> FirstNames(a)(bank, name)
  {
    TableIsFirst(a, bank);
    if FirstNames(a)(bank, name) {
      var i: nat, j: nat :| FirstMention(a, i, j, bank) && a[i].banks[j].1 == name;
      assert Mentioned(a, i, j, bank);
    }
  }

  ghost function HasResult(named: (string, string) -> bool): Message -> bool {
    (m: Message) => m.Transactions? && AnyNamed(m.batch, named)
  }

  ghost predicate ResultsAt(t: seq<Message>, named: (string, string) -> bool, out: seq<Output>, at: seq<nat>) {
    && |at| == |out|
    && forall i :: 0 <= i < |at| ==> at[i] < |t| && t[at[i]].Transactions? && IsResult(t[at[i]].batch, named, out[i])
  }

  /** The outputs of a joined transaction stream: for each batch of it, in order, that has a transaction of a
      named bank, its result. */
  ghost predicate ResultsOf(t: seq<Message>, named: (string, string) -> bool, out: seq<Output>) {
    exists at: seq<nat> :: Picks(t, HasResult(named), at) && ResultsAt(t, named, out, at)
  }

  lemma ResultsAtSnoc(t: seq<Message>, m: Message, named: (string, string) -> bool, out: seq<Output>, at: seq<nat>,
                      o: Output)
    requires ResultsAt(t, named, out, at)
    ensures ResultsAt(t + [m], named, out, at)
    ensures m.Transactions? && IsResult(m.batch, named, o) ==> ResultsAt(t + [m], named, out + [o], at + [|t|])
  {
    hide IsResult;
    var all := t + [m];
    assert forall i :: 0 <= i < |at| ==> at[i] < |t| && all[at[i]] == t[at[i]];
  }

  lemma ResultsSnoc(t: seq<Message>, m: Message, named: (string, string) -> bool, out: seq<Output>, more: seq<Output>)
    requires ResultsOf(t, named, out)
    requires if HasResult(named)(m) then |more| == 1 && IsResult(m.batch, named, more[0]) else more == []
    ensures ResultsOf(t + [m], named, out + more)
  {
    hide IsResult, AnyNamed, Picks, ResultsAt;
    var at: seq<nat> :| Picks(t, HasResult(named), at) && ResultsAt(t, named, out, at);
    PicksSnoc(t, m, HasResult(named), at);
    ResultsAtSnoc(t, m, named, out, at, if more == [] then Query2Eof else more[0]);
    if HasResult(named)(m) {
      assert more == [more[0]];
    } else {
      assert out + more == out;
    }
  }

  lemma {:induction false} JoinedAllResults(t: seq<Message>, table: BankTable)
    ensures ResultsOf(t, InTable(table), JoinedAll(BatchesIn(t), table))
  {
    hide AnyNamed, InTable, Joined, ResultsOf;
    if t == [] {
      NoResults(InTable(table));
    } else {
      var init, m := t[..|t| - 1], t[|t| - 1];
      assert t == init + [m];
      JoinedAllResults(init, table);
      var out := JoinedAll(BatchesIn(init), table);
      if m.Transactions? {
        JoinedIsResult(m.batch, table);
        JoinedSnoc(BatchesIn(init), m.batch, table);
        ResultsSnoc(init, m, InTable(table), out, Joined(m.batch, table));
      } else {
        ResultsSnoc(init, m, InTable(table), out, []);
        assert BatchesIn(init) + [] == BatchesIn(init) && out + [] == out;
      }
    }
  }

  lemma NoResults(named: (string, string) -> bool)
    ensures ResultsOf([], named, [])
  {
    PicksNone(HasResult(named));
    var at: seq<nat> := [];
    assert Picks([], HasResult(named), at) && ResultsAt([], named, [], at);
  }

  lemma SameHasName(m: (string, string) -> bool, n: (string, string) -> bool, tx: Tx)
    requires forall bank, name :: m(bank, name) <==> n(bank, name)
    ensures HasName(m)(tx) <==> HasName(n)(tx)
  {
    if name :| m(tx.fromBank, name) {
      assert n(tx.fromBank, name);
    }
    if name :| n(tx.fromBank, name) {
      assert m(tx.fromBank, name);
    }
  }

  lemma SameRows(txs: seq<Tx>, m: (string, string) -> bool, n: (string, string) -> bool, rows: seq<Row>, at: seq<nat>)
    requires (forall bank, name :: m(bank, name) <==> n(bank, name)) && RowsFor(txs, m, rows, at)
    ensures RowsFor(txs, n, rows, at)
  {
  }

  /** Two ways to name banks that agree make the same joins. */
  lemma SameNames(b: TxBatch, m: (string, string) -> bool, n: (string, string) -> bool, o: Output)
    requires forall bank, name :: m(bank, name) <==> n(bank, name)
    ensures AnyNamed(b, m) ==> AnyNamed(b, n)
    ensures IsResult(b, m, o) ==> IsResult(b, n, o)
  {
    forall tx: Tx ensures HasName(m)(tx) <==> HasName(n)(tx) {
      SameHasName(m, n, tx);
    }
    hide HasName, RowsFor, Picks;
    if IsResult(b, m, o) {
      var at: seq<nat> :| Picks(b.txs, HasName(m), at) && RowsFor(b.txs, m, o.rows, at);
      PicksAlike(b.txs, HasName(m), HasName(n), at);
      SameRows(b.txs, m, n, o.rows, at);
    }
  }

  lemma SameResults(t: seq<Message>, m: (string, string) -> bool, n: (string, string) -> bool, out: seq<Output>)
    requires (forall bank, name :: m(bank, name) <==> n(bank, name)) && ResultsOf(t, m, out)
    ensures ResultsOf(t, n, out)
  {
    hide AnyNamed, IsResult, Picks;
    var at: seq<nat> :| Picks(t, HasResult(m), at) && ResultsAt(t, m, out, at);
    forall x: Message ensures HasResult(m)(x) <==> HasResult(n)(x) {
      if x.Transactions? {
        SameNames(x.batch, m, n, Query2Eof);
        SameNames(x.batch, n, m, Query2Eof);
      }
    }
    PicksAlike(t, HasResult(m), HasResult(n), at);
    forall i | 0 <= i < |at| ensures IsResult(t[at[i]].batch, n, out[i]) {
      SameNames(t[at[i]].batch, m, n, out[i]);
    }
    assert ResultsAt(t, n, out, at);
  }

  /** What every merge of the two streams puts out, said of the messages alone: for each batch with a
      transaction of a bank that is mentioned, in order, one result under its id, with one row for each such
      transaction, in order, that carries its bank, account and amount and the name of the bank's first mention;
      and then the EOF. */
  lemma MergeIsJoin(p: nat, a: seq<Message>, t: seq<Message>, m: seq<Message>)
    requires AccountStream(a) && TransactionStream(p, t) && IsMerge(m, a, t)
    ensures var out := Run(p, m).1;
            out != [] && out[|out| - 1] == Query2Eof && ResultsOf(t, FirstNames(a), out[..|out| - 1])
  {
    hide AccountStream, TransactionStream, IsMerge, ResultsOf;
    InterleavingIndependence(p, a, t, m);
    var results := JoinedAll(BatchesIn(t), TableOf(a));
    assert Run(p, m).1[..|Run(p, m).1| - 1] == results;
    hide Run, JoinedAll;
    JoinedAllResults(t, TableOf(a));
    forall bank, name ensures InTable(TableOf(a))(bank, name) <==> FirstNames(a)(bank, name) {
      NamesAre(a, bank, name);
    }
    hide InTable, FirstNames;
    SameResults(t, InTable(TableOf(a)), FirstNames(a), results);
  }

  /** Whatever arrives in whatever order, also again: there is at most one EOF, exactly if the client is final. */
  lemma {:induction false} OneEof(p: nat, msgs: seq<Message>)
    ensures multiset(Run(p, msgs).1)[Query2Eof] == if Run(p, msgs).0.finalized then 1 else 0
  {
    if msgs != [] {
      var init, m := msgs[..|msgs| - 1], msgs[|msgs| - 1];
      OneEof(p, init);
      var (s, out) := Run(p, init);
      hide JoinedAll, Joined, NamedAll;
      NoEofInResults(s.cache, s.bankNames);
      match m
      case Transactions(b) => NoEofInOne(b, s.bankNames);
      case _ =>
    }
  }

  lemma NoEofInOne(b: TxBatch, table: BankTable)
    ensures Query2Eof !in Joined(b, table)
  {
  }

  /** The EOF is the last output and appears nowhere else. */
  lemma {:induction false} NoEofInResults(batches: seq<TxBatch>, table: BankTable)
    ensures Query2Eof !in JoinedAll(batches, table)
  {
    if batches != [] {
      NoEofInResults(batches[..|batches| - 1], table);
    }
  }
}
