/** The commands that the inverter is shipped with, and what polling promises for them. */
module SputnikTable {
  import opened Prelude
  import opened SputnikTokenizer
  import opened SputnikTelegram
  import opened SputnikRoundTrip
  import opened SputnikPolling

  /** The version command asks for what it does not know yet. */
  function VersionQuery(gotVersion: bool, gotBuild: bool): Query {
    if !gotVersion && !gotBuild then Query("BDN;SWV", 9 + 7)
    else if !gotVersion then Query("SWV", 9)
    else Query("BDN", 7)
  }

  const IDENTITY := [Query("TYP", 9)]

  const COUNTERS := [
    Query("PAC", 9), Query("PDC", 9), Query("KHR", 9), Query("CAC", 9), Query("KYR", 9), Query("KMT", 7),
    Query("KDY", 10), Query("KLD", 10), Query("KT0", 10), Query("PIN", 9)]

  const GRID := [Query("TNF", 10), Query("PRL", 10), Query("UDC", 10), Query("UL1", 10)]

  const VOLTAGES := [Query("UL2", 10), Query("UL3", 10)]

  const CURRENT := [Query("IDC", 10), Query("IL1", 10)]

  const CURRENTS := [Query("IL2", 10), Query("IL3", 10)]

  const TEMPERATURE := [Query("TKK", 10)]

  const TEMPERATURES := [Query("TK2", 10), Query("TK3", 10)]

  const TRACKERS := [
    Query("UD01", 10), Query("UD02", 10), Query("UD03", 10), Query("ID01", 10), Query("ID02", 10), Query("ID03", 10),
    Query("PD01", 9), Query("PD02", 9), Query("PD03", 9)]

  const STATE := [Query("SYS", 10), Query("IEE", 10), Query("IED", 10), Query("IEA", 10), Query("UGD", 10)]

  /** The vector that the constructor fills, as the commands ask and answer at the moment. `phases` is
      the setting that adds the commands for the second and third phase. */
  function ShippedTable(phases: bool, gotVersion: bool, gotBuild: bool): seq<Query> {
    IDENTITY + [VersionQuery(gotVersion, gotBuild)] + COUNTERS
    + GRID + (if phases then VOLTAGES else [])
    + CURRENT + (if phases then CURRENTS else [])
    + TEMPERATURE + (if phases then TEMPERATURES else [])
    + TRACKERS + STATE
  }

  /** A command word of three or four letters and digits, with a short answer. */
  predicate Simple(q: Query) {
    && 3 <= |q.text| <= 4 && q.maxAnswer <= 10
    && forall i | 0 <= i < |q.text| :: 'A' <= q.text[i] <= 'Z' || '0' <= q.text[i] <= '9'
  }

  predicate Good(q: Query) { FitsAlone(q) && Words(q.text) }

  predicate AllGood(table: seq<Query>) { forall i | 0 <= i < |table| :: Good(table[i]) }

  lemma SimpleIsGood(q: Query)
    requires Simple(q)
    ensures Good(q)
  {
    hide Tokens;
    OneToken(";", q.text);
  }

  lemma SimpleAreGood(table: seq<Query>)
    requires forall i | 0 <= i < |table| :: Simple(table[i])
    ensures AllGood(table)
  {
    hide Good, Simple;
    forall i | 0 <= i < |table| ensures Good(table[i]) { SimpleIsGood(table[i]); }
  }

  lemma BothGood(a: seq<Query>, b: seq<Query>)
    requires AllGood(a) && AllGood(b)
    ensures AllGood(a + b)
  {
    hide Good;
  }

  lemma VersionIsGood(gotVersion: bool, gotBuild: bool)
    ensures AllGood([VersionQuery(gotVersion, gotBuild)])
  {
    hide Tokens;
    SimpleIsGood(Query("SWV", 9));
    SimpleIsGood(Query("BDN", 7));
    assert "BDN" + [';'] + "SWV" == "BDN;SWV";
    TokensSplit(";", "BDN", ';', "SWV");
  }

  lemma PartsAreGood()
    ensures AllGood(IDENTITY) && AllGood(COUNTERS) && AllGood(GRID) && AllGood(VOLTAGES) && AllGood(CURRENT)
    ensures AllGood(CURRENTS) && AllGood(TEMPERATURE) && AllGood(TEMPERATURES) && AllGood(TRACKERS) && AllGood(STATE)
    ensures AllGood([])
  {
    hide AllGood;
    SimpleAreGood([]);
    SimpleAreGood(IDENTITY);
    SimpleAreGood(COUNTERS);
    SimpleAreGood(GRID);
    SimpleAreGood(VOLTAGES);
    SimpleAreGood(CURRENT);
    SimpleAreGood(CURRENTS);
    SimpleAreGood(TEMPERATURE);
    SimpleAreGood(TEMPERATURES);
    SimpleAreGood(TRACKERS);
    SimpleAreGood(STATE);
  }

  /** Every command of the shipped table is well formed and fits alone, whatever the version command
      asks for. */
  lemma ShippedCommandsFit(phases: bool, gotVersion: bool, gotBuild: bool)
    ensures var table := ShippedTable(phases, gotVersion, gotBuild);
            && |table| == 33 + (if phases then 6 else 0)
            && Askable(table) && forall k | 0 <= k < |table| :: FitsAlone(table[k])
  {
    hide AllGood, Good;
    PartsAreGood();
    VersionIsGood(gotVersion, gotBuild);
    var v, c := if phases then VOLTAGES else [], if phases then CURRENTS else [];
    var t := if phases then TEMPERATURES else [];
    BothGood(IDENTITY, [VersionQuery(gotVersion, gotBuild)]);
    var a := IDENTITY + [VersionQuery(gotVersion, gotBuild)];
    BothGood(a, COUNTERS);
    BothGood(a + COUNTERS, GRID);
    BothGood(a + COUNTERS + GRID, v);
    var b := a + COUNTERS + GRID + v;
    BothGood(b, CURRENT);
    BothGood(b + CURRENT, c);
    BothGood(b + CURRENT + c, TEMPERATURE);
    BothGood(b + CURRENT + c + TEMPERATURE, t);
    var d := b + CURRENT + c + TEMPERATURE + t;
    BothGood(d, TRACKERS);
    BothGood(d + TRACKERS, STATE);
    GoodMeans(ShippedTable(phases, gotVersion, gotBuild));
  }

  lemma GoodMeans(table: seq<Query>)
    requires AllGood(table)
    ensures Askable(table) && forall k | 0 <= k < |table| :: FitsAlone(table[k])
  {
    hide FitsAlone, Words;
    assert forall k | 0 <= k < |table| :: Good(table[k]);
  }

  ghost predicate ShippedTables(tables: Tables, phases: bool) {
    forall m: nat :: IsShipped(tables(m), phases)
  }

  predicate IsShipped(table: seq<Query>, phases: bool) {
    || table == ShippedTable(phases, false, false) || table == ShippedTable(phases, false, true)
    || table == ShippedTable(phases, true, false) || table == ShippedTable(phases, true, true)
  }

  lemma ShippedIsGood(table: seq<Query>, phases: bool)
    requires IsShipped(table, phases)
    ensures |table| == 33 + (if phases then 6 else 0)
    ensures Askable(table) && forall k | 0 <= k < |table| :: FitsAlone(table[k])
  {
    hide ShippedTable, FitsAlone, Askable;
    ShippedCommandsFit(phases, false, false);
    ShippedCommandsFit(phases, false, true);
    ShippedCommandsFit(phases, true, false);
    ShippedCommandsFit(phases, true, true);
  }

  /** The promise holds for the shipped commands: whatever the version command learns between the
      telegrams, as many telegrams as there are pending commands ask them all. */
  lemma ShippedCommandsAreAsked(tables: Tables, phases: bool, pending: seq<nat>)
    requires ShippedTables(tables, phases) && Known(tables(0), pending)
    ensures SameCommands(tables) && After(tables, pending, |pending|) == []
  {
    hide IsShipped, FitsAlone, After, Askable;
    forall m: nat
      ensures |tables(m)| == 33 + (if phases then 6 else 0)
      ensures forall k | 0 <= k < |tables(m)| :: FitsAlone(tables(m)[k])
    {
      ShippedIsGood(tables(m), phases);
    }
    AllAreSent(tables, pending, |pending|);
  }

  /** Each telegram asks the first pending command, and passes the simulator's checks. */
  lemma ShippedTelegramIsAccepted(table: seq<Query>, phases: bool, pending: seq<nat>, own: nat, comm: nat)
    requires IsShipped(table, phases) && Known(table, pending) && pending != [] && own <= 0xFF && comm <= 0xFF
    ensures var taken := Pack(table, pending).taken;
            && Known(table, taken) && taken != [] && taken[0] == pending[0]
            && SimulatorCheck(comm, Assembled(table, pending, own, comm)) == Some((own, Asked(table, taken)))
  {
    hide IsShipped, FitsAlone, Askable, Pack, SimulatorCheck, Assembled, Asked;
    ShippedIsGood(table, phases);
    QueryReachesSimulator(table, pending, own, comm);
  }
}
