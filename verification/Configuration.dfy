/** The configuration: parsed records are imported into it, and everything accumulates. */
module Configuration {
  import opened Outcomes
  import opened Numerals
  import opened Mms
  import opened Connection
  import opened Selection
  import opened OsiSelector

  datatype OsiParameters = OsiParameters(
    localApTitle: string, localAeQualifier: int32, remoteApTitle: string, remoteAeQualifier: int32,
    localPSelector: seq<byte>, localSSelector: seq<byte>, localTSelector: seq<byte>,
    remotePSelector: seq<byte>, remoteSSelector: seq<byte>, remoteTSelector: seq<byte>)

  datatype ServerConnectionParameters = ServerConnectionParameters(
    ipAddress: string, mmsPort: int32, osiParameters: Option<OsiParameters>)

  datatype ReadMode = DO_READING | DATASET_READING

  datatype ApplicationParameters = ApplicationParameters(readPollingPeriodInMs: uint32, readMode: ReadMode)

  /** A datapoint configuration shares the root of its name tree with its copies. */
  datatype DatapointConfig = DatapointConfig(
    dpLabel: string, datapointType: string, typeId: DatapointTypeId, dataPath: string,
    fc: FunctionalConstraint, mmsNameTree: MmsNameNode?)

  /** A datapoint of the configuration has no name tree; only the copies that a client makes get one. */
  type ConfiguredDatapoint = c: DatapointConfig | c.mmsNameTree == null
    witness DatapointConfig("", "", UNKNOWN_DATAPOINT_TYPE, "", FunctionalConstraint(0), null)

  // ---------------------------------------------------------------- parsed records

  /** A part of the configuration after parsing: missing, ill-formed, or there. */
  datatype Section<+T> = Absent | Malformed | Present(value: T)

  datatype DatasetRecord = DatasetRecord(datasetRef: string, dataObjects: seq<ConfiguredDatapoint>)

  datatype Input = Input(
    logMinLevel: Option<string>,
    asset: Option<string>,
    iedName: Section<string>,
    connections: Section<seq<Section<ServerConnectionParameters>>>,
    hasApplicationLayer: bool,
    readingPeriod: Section<int32>,
    readMode: Section<string>,
    datapoints: Section<seq<Section<ConfiguredDatapoint>>>,
    datasets: Section<seq<Section<DatasetRecord>>>)

  type ServerConfigDict = map<string, ServerConnectionParameters>

  datatype ConfigView = ConfigView(
    logMinLevel: string, assetName: string, iedName: string, serverConfigDict: ServerConfigDict,
    applicationParams: ApplicationParameters, exchangedData: seq<ConfiguredDatapoint>,
    selectedDOInExchangedDatasets: map<string, seq<ConfiguredDatapoint>>)

  // ---------------------------------------------------------------- keys of the server dictionary

  function BuildKey(params: ServerConnectionParameters): string {
    params.ipAddress + "_" + PrintInt(params.mmsPort)
  }

  /** The pieces of `s` between dots. */
  function Pieces(s: string): (pieces: seq<string>)
    ensures pieces != []
  {
    if s == "" then [""]
    else if s[0] == '.' then [""] + Pieces(s[1..])
    else
      var rest := Pieces(s[1..]);
      [[s[0]] + rest[0]] + rest[1..]
  }

  predicate IsOctet(s: string) {
    1 <= |s| <= 3 && AllDigits(s, 10) && DigitsValue(s, 10) <= 255
  }

  /** `inet_pton` for IPv4 accepts the form ddd.ddd.ddd.ddd of section 6.3 of RFC 3493. */
  predicate IsValidIPAddress(s: string) {
    var pieces := Pieces(s);
    |pieces| == 4 && forall i :: 0 <= i < 4 ==> IsOctet(pieces[i])
  }

  lemma {:induction false} PiecesSplit(piece: string, rest: string)
    requires '.' !in piece
    ensures Pieces(piece + "." + rest) == [piece] + Pieces(rest)
    ensures Pieces(piece) == [piece]
  {
    if piece == "" {
      assert "" + "." + rest == "." + rest;
    } else {
      assert (piece + "." + rest)[1..] == piece[1..] + "." + rest;
      PiecesSplit(piece[1..], rest);
      assert ([piece[1..]] + Pieces(rest))[1..] == Pieces(rest) && [piece[0]] + piece[1..] == piece;
    }
  }

  lemma {:induction false} NumeralLength(n: nat)
    ensures n < 10 <==> |PrintNat(n)| == 1
    ensures n < 100 <==> |PrintNat(n)| <= 2
    ensures n < 1000 <==> |PrintNat(n)| <= 3
  {
    if n >= 10 {
      NumeralLength(n / 10);
    }
  }

  lemma OctetsExactly(n: nat)
    ensures IsOctet(PrintNat(n)) <==> n <= 255
    ensures '.' !in PrintNat(n)
  {
    NumeralLength(n);
    PrintNatDenotes(n);
    assert !IsDigit('.', 10);
  }

  lemma FourPieces(a: string, b: string, c: string, d: string)
    requires '.' !in a && '.' !in b && '.' !in c && '.' !in d
    ensures Pieces(a + "." + (b + "." + (c + "." + d))) == [a, b, c, d]
    ensures Pieces(a + "." + (b + "." + c)) == [a, b, c]
  {
    PiecesSplit(d, "");
    PiecesSplit(c, d);
    PiecesSplit(b, c + "." + d);
    PiecesSplit(a, b + "." + (c + "." + d));
    PiecesSplit(b, c);
    PiecesSplit(a, b + "." + c);
    hide Pieces;
    assert [a] + ([b] + ([c] + [d])) == [a, b, c, d] && [a] + ([b] + [c]) == [a, b, c];
  }

  lemma FourOctets(a: string, b: string, c: string, d: string)
    requires '.' !in a && '.' !in b && '.' !in c && '.' !in d
    ensures IsValidIPAddress(a + "." + (b + "." + (c + "." + d))) <==> IsOctet(a) && IsOctet(b) && IsOctet(c) && IsOctet(d)
    ensures !IsValidIPAddress(a + "." + (b + "." + c))
  {
    FourPieces(a, b, c, d);
    hide Pieces, IsOctet;
    var pieces := [a, b, c, d];
    assert pieces[0] == a && pieces[1] == b && pieces[2] == c && pieces[3] == d;
  }

  /** A piece that is empty, longer than three characters or holds anything but decimal digits makes no address. */
  lemma OctetsAreShort(first: string, rest: string)
    requires '.' !in first && (first == "" || |first| > 3 || exists i :: 0 <= i < |first| && first[i] !in "0123456789")
    ensures !IsValidIPAddress(first + "." + rest)
  {
    PiecesSplit(first, rest);
    assert Pieces(first + "." + rest)[0] == first;
    if i :| 0 <= i < |first| && first[i] !in "0123456789" {
      assert !IsDigit(first[i], 10);
    }
  }

  /** Four printed numbers are an address exactly if each of them is at most 255; three are none. */
  lemma AddressesExactly(a: nat, b: nat, c: nat, d: nat)
    ensures IsValidIPAddress(PrintNat(a) + "." + (PrintNat(b) + "." + (PrintNat(c) + "." + PrintNat(d)))) <==>
              a <= 255 && b <= 255 && c <= 255 && d <= 255
    ensures !IsValidIPAddress(PrintNat(a) + "." + (PrintNat(b) + "." + PrintNat(c)))
  {
    hide PrintNat, IsOctet, IsValidIPAddress;
    OctetsExactly(a);
    OctetsExactly(b);
    OctetsExactly(c);
    OctetsExactly(d);
    FourOctets(PrintNat(a), PrintNat(b), PrintNat(c), PrintNat(d));
  }

  lemma {:induction false} NotInPieces(s: string, c: char)
    requires c != '.' && forall i :: 0 <= i < |Pieces(s)| ==> c !in Pieces(s)[i]
    ensures c !in s
  {
    if s != "" {
      var rest := Pieces(s[1..]);
      forall i | 0 <= i < |rest|
        ensures c !in rest[i]
      {
        if s[0] == '.' {
          assert Pieces(s)[i + 1] == rest[i];
        } else {
          assert Pieces(s)[i] == if i == 0 then [s[0]] + rest[0] else rest[i];
        }
      }
      NotInPieces(s[1..], c);
      assert s[0] != '.' ==> s[0] in Pieces(s)[0];
    }
  }

  lemma AddressHasNoUnderscore(s: string)
    requires IsValidIPAddress(s)
    ensures '_' !in s
  {
    forall i | 0 <= i < 4
      ensures '_' !in Pieces(s)[i]
    {
      assert IsOctet(Pieces(s)[i]) && !IsDigit('_', 10);
    }
    NotInPieces(s, '_');
  }

  predicate SameServer(a: ServerConnectionParameters, b: ServerConnectionParameters) {
    a.ipAddress == b.ipAddress && a.mmsPort == b.mmsPort
  }

  lemma FirstUnderscore(ip: string, ip': string, rest: string, rest': string)
    requires '_' !in ip && ip + "_" + rest == ip' + "_" + rest'
    ensures |ip| <= |ip'|
  {
    assert (ip' + "_" + rest')[|ip'|] == '_';
    assert forall i :: 0 <= i < |ip| ==> (ip + "_" + rest)[i] == ip[i];
  }

  /** Servers with different addresses or ports, negative ones included, have different keys. */
  lemma KeysIdentifyServers(a: ServerConnectionParameters, b: ServerConnectionParameters)
    requires IsValidIPAddress(a.ipAddress) && IsValidIPAddress(b.ipAddress)
    ensures BuildKey(a) == BuildKey(b) <==> SameServer(a, b)
  {
    if BuildKey(a) == BuildKey(b) {
      AddressHasNoUnderscore(a.ipAddress);
      AddressHasNoUnderscore(b.ipAddress);
      FirstUnderscore(a.ipAddress, b.ipAddress, PrintInt(a.mmsPort), PrintInt(b.mmsPort));
      FirstUnderscore(b.ipAddress, a.ipAddress, PrintInt(b.mmsPort), PrintInt(a.mmsPort));
      var n := |a.ipAddress|;
      assert BuildKey(a)[..n] == a.ipAddress && BuildKey(b)[..n] == b.ipAddress;
      assert BuildKey(a)[n + 1..] == PrintInt(a.mmsPort) && BuildKey(b)[n + 1..] == PrintInt(b.mmsPort);
      PrintIntInjective(a.mmsPort, b.mmsPort);
    }
  }

  // ---------------------------------------------------------------- import, on values

  datatype Imported<T> = Imported(state: T, threw: bool)

  predicate Accepts(connection: Section<ServerConnectionParameters>) {
    connection.Present? && IsValidIPAddress(connection.value.ipAddress)
  }

  /** Connections enter the dictionary one by one, until one is not accepted. */
  function ImportConnections(dict: ServerConfigDict, connections: seq<Section<ServerConnectionParameters>>)
    : Imported<ServerConfigDict>
    decreases |connections|
  {
    if connections == [] then Imported(dict, false)
    else if !Accepts(connections[0]) then Imported(dict, true)
    else ImportConnections(dict[BuildKey(connections[0].value) := connections[0].value], connections[1..])
  }

  /** Every entry is under its own key. */
  ghost predicate WellKeyed(dict: ServerConfigDict) {
    forall key :: key in dict ==> IsValidIPAddress(dict[key].ipAddress) && key == BuildKey(dict[key])
  }

  predicate AllAccepted(connections: seq<Section<ServerConnectionParameters>>)
    ensures AllAccepted(connections) && connections != [] ==>
              connections[|connections| - 1].Present? && AllAccepted(connections[..|connections| - 1])
  {
    forall i :: 0 <= i < |connections| ==> Accepts(connections[i])
  }

  lemma {:induction false} ImportSplits(dict: ServerConfigDict, connections: seq<Section<ServerConnectionParameters>>)
    requires connections != [] && AllAccepted(connections)
    ensures var last := connections[|connections| - 1].value;
            var before := ImportConnections(dict, connections[..|connections| - 1]);
            ImportConnections(dict, connections) == Imported(before.state[BuildKey(last) := last], false) && !before.threw
    decreases |connections|
  {
    if |connections| > 1 {
      assert Accepts(connections[0]);
      var first := connections[0].value;
      ImportSplits(dict[BuildKey(first) := first], connections[1..]);
      assert connections[1..][..|connections| - 2] == connections[..|connections| - 1][1..];
    }
  }

  /** `i` is the index of the last connection given for this server, or the number of connections if there is none. */
  predicate IsLastFor(connections: seq<Section<ServerConnectionParameters>>, server: ServerConnectionParameters, i: nat)
    requires AllAccepted(connections)
  {
    && i <= |connections|
    && forall j :: 0 <= j < |connections| && Accepts(connections[j]) ==>
         && (j == i ==> SameServer(connections[j].value, server))
         && (j > i || i == |connections| ==> !SameServer(connections[j].value, server))
  }

  lemma LastAmongFirst(connections: seq<Section<ServerConnectionParameters>>, server: ServerConnectionParameters, i: nat)
    requires connections != [] && AllAccepted(connections) && IsLastFor(connections, server, i) && i != |connections| - 1
    ensures var n := |connections| - 1; IsLastFor(connections[..n], server, if i < n then i else n)
  {
    hide SameServer, IsValidIPAddress;
  }

  /** The dictionary holds exactly one entry per server ever given, and the last one given wins. */
  lemma {:induction false} LastConnectionWins(dict: ServerConfigDict, connections: seq<Section<ServerConnectionParameters>>,
                                              server: ServerConnectionParameters, i: nat)
    requires IsValidIPAddress(server.ipAddress) && AllAccepted(connections) && IsLastFor(connections, server, i)
    ensures var after, key := ImportConnections(dict, connections).state, BuildKey(server);
            && (key in after <==> i < |connections| || key in dict)
            && (i < |connections| ==> connections[i].Present? && after[key] == connections[i].value)
            && (i == |connections| && key in dict ==> after[key] == dict[key])
    decreases |connections|
  {
    if connections != [] {
      var n := |connections| - 1;
      assert Accepts(connections[n]) && (i == n <==> SameServer(connections[n].value, server));
      assert i < n ==> connections[i] == connections[..n][i] && Accepts(connections[i]);
      hide BuildKey, SameServer, IsOctet, ImportConnections;
      ImportSplits(dict, connections);
      KeysIdentifyServers(connections[n].value, server);
      if i != n {
        LastAmongFirst(connections, server, i);
        hide IsLastFor, AllAccepted, Accepts;
        LastConnectionWins(dict, connections[..n], server, if i < n then i else n);
      }
    }
  }

  /** Two entries of a dictionary are never for the same server. */
  lemma OneEntryPerServer(dict: ServerConfigDict, a: string, b: string)
    requires WellKeyed(dict) && a in dict && b in dict && SameServer(dict[a], dict[b])
    ensures a == b
  {
  }

  /** Records are appended one by one, until one is ill-formed. */
  function ImportEach<T>(before: seq<T>, records: seq<Section<T>>): Imported<seq<T>>
    decreases |records|
  {
    if records == [] then Imported(before, false)
    else if !records[0].Present? then Imported(before, true)
    else ImportEach(before + [records[0].value], records[1..])
  }

  function ImportDatasets(before: map<string, seq<ConfiguredDatapoint>>, records: seq<Section<DatasetRecord>>)
    : Imported<map<string, seq<ConfiguredDatapoint>>>
    decreases |records|
  {
    if records == [] then Imported(before, false)
    else if !records[0].Present? || records[0].value.datasetRef == "" then Imported(before, true)
    else ImportDatasets(before[records[0].value.datasetRef := records[0].value.dataObjects], records[1..])
  }

  function ImportApplication(before: ApplicationParameters, input: Input): Imported<ApplicationParameters> {
    if input.readingPeriod.Malformed? then Imported(before, true)
    else
      var params := if input.readingPeriod.Absent? then before
                    else before.(readPollingPeriodInMs := input.readingPeriod.value % 0x1_0000_0000);
      if input.readMode.Malformed? then Imported(params, true)
      else if input.readMode.Absent? then Imported(params, false)
      else Imported(params.(readMode := if input.readMode.value == "dataset" then DATASET_READING else DO_READING), false)
  }

  /** What an import makes of the application parameters: it throws exactly for an ill-formed field; a period that is
      given is congruent to the given number modulo 2^32, and is kept when the mode throws; the mode is by dataset
      exactly for the word `dataset`; and what is not given stays. */
  lemma ApplicationAfterImport(before: ApplicationParameters, input: Input)
    ensures var after := ImportApplication(before, input);
            && (after.threw <==> input.readingPeriod.Malformed? || input.readMode.Malformed?)
            && (if input.readingPeriod.Present?
                then exists k: int :: after.state.readPollingPeriodInMs == input.readingPeriod.value + k * 0x1_0000_0000
                else after.state.readPollingPeriodInMs == before.readPollingPeriodInMs)
            && (if input.readMode.Present? && !input.readingPeriod.Malformed?
                then after.state.readMode.DATASET_READING? <==> input.readMode.value == "dataset"
                else after.state.readMode == before.readMode)
  {
    if input.readingPeriod.Present? {
      var given: int := input.readingPeriod.value;
      var k: int := if given < 0 then 1 else 0;
      assert ImportApplication(before, input).state.readPollingPeriodInMs == given + k * 0x1_0000_0000;
    }
  }

  function ImportProtocol(before: ConfigView, input: Input): Imported<ConfigView> {
    var c0 := before.(
      logMinLevel := if input.logMinLevel.Some? then input.logMinLevel.value else "info",
      assetName := if input.asset.Some? then input.asset.value else "iec61850");
    if !input.iedName.Present? || !input.connections.Present? then Imported(c0, true)
    else
      var servers := ImportConnections(c0.serverConfigDict, input.connections.value);
      var c1 := c0.(iedName := input.iedName.value, serverConfigDict := servers.state);
      if servers.threw || !input.hasApplicationLayer then Imported(c1, true)
      else
        var application := ImportApplication(c1.applicationParams, input);
        Imported(c1.(applicationParams := application.state), application.threw)
  }

  function ImportExchanged(before: ConfigView, input: Input): Imported<ConfigView> {
    if input.datapoints.Malformed? then Imported(before, true)
    else
      var data := if input.datapoints.Absent? then Imported(before.exchangedData, false)
                  else ImportEach(before.exchangedData, input.datapoints.value);
      var c := before.(exchangedData := data.state);
      if data.threw || input.datasets.Malformed? then Imported(c, true)
      else
        var datasets := if input.datasets.Absent? then Imported(c.selectedDOInExchangedDatasets, false)
                        else ImportDatasets(c.selectedDOInExchangedDatasets, input.datasets.value);
        Imported(c.(selectedDOInExchangedDatasets := datasets.state), datasets.threw)
  }

  /** What an import leaves, wherever it throws. */
  function ImportSpec(before: ConfigView, input: Input): Imported<ConfigView> {
    var protocol := ImportProtocol(before, input);
    if protocol.threw then protocol else ImportExchanged(protocol.state, input)
  }

  // ---------------------------------------------------------------- what an import brings in

  /** `k` is the index of the first ill-formed record, or the number of records if there is none. */
  predicate FirstIllFormed<T>(records: seq<Section<T>>, k: nat) {
    && k <= |records| && (forall i :: 0 <= i < k ==> records[i].Present?)
    && (k < |records| ==> !records[k].Present?)
  }

  function Values<T>(records: seq<Section<T>>, k: nat): (r: seq<T>)
    requires k <= |records| && forall i :: 0 <= i < k ==> records[i].Present?
    ensures |r| == k && forall i :: 0 <= i < k ==> r[i] == records[i].value
  {
    seq(k, i requires 0 <= i < k => records[i].value)
  }

  /** All records before the first ill-formed one are appended, in order; an ill-formed one throws. */
  lemma {:induction false} RecordsImported<T>(before: seq<T>, records: seq<Section<T>>, k: nat)
    requires FirstIllFormed(records, k)
    ensures ImportEach(before, records) == Imported(before + Values(records, k), k < |records|)
    decreases |records|
  {
    if k == 0 {
      assert before + Values(records, 0) == before;
    } else {
      assert FirstIllFormed(records[1..], k - 1);
      RecordsImported(before + [records[0].value], records[1..], k - 1);
      assert before + [records[0].value] + Values(records[1..], k - 1) == before + Values(records, k);
    }
  }

  /** All connections before the first that is ill-formed or has no valid address are entered; that one throws. */
  lemma {:induction false} ConnectionsImported(dict: ServerConfigDict, connections: seq<Section<ServerConnectionParameters>>,
                                               k: nat)
    requires k <= |connections|
    requires forall i :: 0 <= i < k ==> connections[i].Present? && IsValidIPAddress(connections[i].value.ipAddress)
    requires k < |connections| ==> !(connections[k].Present? && IsValidIPAddress(connections[k].value.ipAddress))
    ensures AllAccepted(connections[..k]) && !ImportConnections(dict, connections[..k]).threw
    ensures ImportConnections(dict, connections)
              == Imported(ImportConnections(dict, connections[..k]).state, k < |connections|)
    decreases |connections|
  {
    hide IsValidIPAddress;
    if k == 0 {
      assert connections[..0] == [];
    } else {
      var first := connections[0].value;
      ConnectionsImported(dict[BuildKey(first) := first], connections[1..], k - 1);
      assert connections[..k][1..] == connections[1..][..k - 1];
      assert forall i :: 0 <= i < k ==> Accepts(connections[..k][i]);
    }
  }

  predicate IsDataset(record: Section<DatasetRecord>) {
    record.Present? && record.value.datasetRef != ""
  }

  /** The same for datasets, up to the first that is ill-formed or has an empty reference. */
  lemma {:induction false} DatasetsImported(before: map<string, seq<ConfiguredDatapoint>>,
                                            records: seq<Section<DatasetRecord>>, k: nat)
    requires k <= |records| && forall i :: 0 <= i < k ==> records[i].Present? && records[i].value.datasetRef != ""
    requires k < |records| ==> !records[k].Present? || records[k].value.datasetRef == ""
    ensures !ImportDatasets(before, records[..k]).threw
    ensures ImportDatasets(before, records) == Imported(ImportDatasets(before, records[..k]).state, k < |records|)
    decreases |records|
  {
    if k == 0 {
      assert records[..0] == [];
    } else {
      DatasetsImported(before[records[0].value.datasetRef := records[0].value.dataObjects], records[1..], k - 1);
      assert records[..k][1..] == records[1..][..k - 1];
    }
  }

  /** Over well-formed records, the selection of a dataset is that of the last record given for its reference; a
      dataset without a record stays as it was. */
  lemma {:induction false} LastDatasetWins(before: map<string, seq<ConfiguredDatapoint>>,
                                           records: seq<Section<DatasetRecord>>, ref: string, i: nat)
    requires forall j :: 0 <= j < |records| ==> records[j].Present? && records[j].value.datasetRef != ""
    requires i <= |records| && (i < |records| ==> records[i].value.datasetRef == ref)
    requires forall j :: 0 <= j < |records| && (i == |records| || j > i) ==> records[j].value.datasetRef != ref
    ensures var after := ImportDatasets(before, records);
            && !after.threw
            && (ref in after.state <==> i < |records| || ref in before)
            && (i < |records| ==> after.state[ref] == records[i].value.dataObjects)
            && (i == |records| && ref in before ==> after.state[ref] == before[ref])
    decreases |records|
  {
    if records != [] {
      var first := records[0].value;
      assert IsDataset(records[0]);
      var next := before[first.datasetRef := first.dataObjects];
      if i == 0 {
        LastDatasetWins(next, records[1..], ref, |records| - 1);
      } else {
        LastDatasetWins(next, records[1..], ref, i - 1);
      }
    }
  }

  lemma {:induction false} ConnectionsThrow(dict: ServerConfigDict, connections: seq<Section<ServerConnectionParameters>>)
    ensures ImportConnections(dict, connections).threw <==>
              exists i :: && 0 <= i < |connections|
                          && !(connections[i].Present? && IsValidIPAddress(connections[i].value.ipAddress))
    decreases |connections|
  {
    hide IsValidIPAddress;
    if connections != [] && Accepts(connections[0]) {
      ConnectionsThrow(dict[BuildKey(connections[0].value) := connections[0].value], connections[1..]);
      assert forall i :: 1 <= i < |connections| ==> connections[i] == connections[1..][i - 1];
    }
  }

  lemma {:induction false} RecordsThrow<T>(before: seq<T>, records: seq<Section<T>>)
    ensures ImportEach(before, records).threw <==> exists i :: 0 <= i < |records| && !records[i].Present?
    decreases |records|
  {
    if records != [] && records[0].Present? {
      RecordsThrow(before + [records[0].value], records[1..]);
      assert forall i :: 1 <= i < |records| ==> records[i] == records[1..][i - 1];
    }
  }

  lemma {:induction false} DatasetsThrow(before: map<string, seq<ConfiguredDatapoint>>, records: seq<Section<DatasetRecord>>)
    ensures ImportDatasets(before, records).threw <==>
              exists i :: 0 <= i < |records| && (!records[i].Present? || records[i].value.datasetRef == "")
    decreases |records|
  {
    if records != [] && IsDataset(records[0]) {
      DatasetsThrow(before[records[0].value.datasetRef := records[0].value.dataObjects], records[1..]);
      assert forall i :: 1 <= i < |records| ==> records[i] == records[1..][i - 1];
    }
  }

  /** An import throws exactly for a mandatory part that is missing or ill-formed, an optional part that is ill-formed,
      a connection that is ill-formed or has no valid address, an ill-formed datapoint, or a dataset that is ill-formed
      or has an empty reference. */
  lemma ImportThrowsExactly(before: ConfigView, input: Input)
    ensures ImportSpec(before, input).threw <==>
              || !input.iedName.Present? || !input.connections.Present? || !input.hasApplicationLayer
              || (exists i :: && 0 <= i < |input.connections.value|
                              && !(input.connections.value[i].Present?
                                   && IsValidIPAddress(input.connections.value[i].value.ipAddress)))
              || input.readingPeriod.Malformed? || input.readMode.Malformed?
              || input.datapoints.Malformed? || input.datasets.Malformed?
              || (input.datapoints.Present?
                  && exists i :: 0 <= i < |input.datapoints.value| && !input.datapoints.value[i].Present?)
              || (input.datasets.Present?
                  && exists i :: && 0 <= i < |input.datasets.value|
                                 && (!input.datasets.value[i].Present? || input.datasets.value[i].value.datasetRef == ""))
  {
    hide IsValidIPAddress, ImportConnections, ImportEach, ImportDatasets;
    if input.connections.Present? {
      ConnectionsThrow(before.serverConfigDict, input.connections.value);
    }
    if input.datapoints.Present? {
      RecordsThrow(before.exchangedData, input.datapoints.value);
    }
    if input.datasets.Present? {
      DatasetsThrow(before.selectedDOInExchangedDatasets, input.datasets.value);
    }
  }

  /** What it leaves, whether it throws or not. Level and asset name are set first; the rest up to the throw. */
  lemma ImportedParts(before: ConfigView, input: Input, k: nat)
    ensures var after := ImportSpec(before, input).state;
            && after.logMinLevel == (if input.logMinLevel.Some? then input.logMinLevel.value else "info")
            && after.assetName == (if input.asset.Some? then input.asset.value else "iec61850")
    ensures var after := ImportSpec(before, input).state;
            if input.iedName.Present? && input.connections.Present?
            then && after.iedName == input.iedName.value
                 && after.serverConfigDict == ImportConnections(before.serverConfigDict, input.connections.value).state
            else after.iedName == before.iedName && after.serverConfigDict == before.serverConfigDict
    ensures var after := ImportSpec(before, input).state;
            after.applicationParams
              == if && input.iedName.Present? && input.connections.Present? && input.hasApplicationLayer
                    && !ImportConnections(before.serverConfigDict, input.connections.value).threw
                 then ImportApplication(before.applicationParams, input).state else before.applicationParams
    ensures var after := ImportSpec(before, input).state;
            if ImportProtocol(before, input).threw || !input.datapoints.Present?
            then after.exchangedData == before.exchangedData
            else FirstIllFormed(input.datapoints.value, k) ==>
                   after.exchangedData == before.exchangedData + Values(input.datapoints.value, k)
    ensures var after := ImportSpec(before, input).state;
            after.selectedDOInExchangedDatasets
              == if && !ImportProtocol(before, input).threw && !input.datapoints.Malformed? && input.datasets.Present?
                    && (input.datapoints.Present? ==> !ImportEach(before.exchangedData, input.datapoints.value).threw)
                 then ImportDatasets(before.selectedDOInExchangedDatasets, input.datasets.value).state
                 else before.selectedDOInExchangedDatasets
  {
    hide ImportConnections, ImportEach, ImportDatasets, ImportApplication;
    if input.datapoints.Present? && FirstIllFormed(input.datapoints.value, k) {
      RecordsImported(before.exchangedData, input.datapoints.value, k);
    }
  }

  lemma {:induction false} ConnectionsAccumulate(dict: ServerConfigDict,
                                                 connections: seq<Section<ServerConnectionParameters>>)
    requires WellKeyed(dict)
    ensures dict.Keys <= ImportConnections(dict, connections).state.Keys
    ensures WellKeyed(ImportConnections(dict, connections).state)
    decreases |connections|
  {
    if connections != [] && Accepts(connections[0]) {
      ConnectionsAccumulate(dict[BuildKey(connections[0].value) := connections[0].value], connections[1..]);
    }
  }

  lemma {:induction false} RecordsAccumulate<T>(before: seq<T>, records: seq<Section<T>>)
    ensures before <= ImportEach(before, records).state
    decreases |records|
  {
    if records != [] && records[0].Present? {
      RecordsAccumulate(before + [records[0].value], records[1..]);
    }
  }

  lemma {:induction false} DatasetsAccumulate(before: map<string, seq<ConfiguredDatapoint>>,
                                              records: seq<Section<DatasetRecord>>)
    ensures before.Keys <= ImportDatasets(before, records).state.Keys
    decreases |records|
  {
    if records != [] && records[0].Present? && records[0].value.datasetRef != "" {
      DatasetsAccumulate(before[records[0].value.datasetRef := records[0].value.dataObjects], records[1..]);
    }
  }

  lemma ProtocolAccumulates(before: ConfigView, input: Input)
    requires WellKeyed(before.serverConfigDict)
    ensures var after := ImportProtocol(before, input).state;
            && before.serverConfigDict.Keys <= after.serverConfigDict.Keys && WellKeyed(after.serverConfigDict)
            && before.exchangedData == after.exchangedData
            && before.selectedDOInExchangedDatasets == after.selectedDOInExchangedDatasets
  {
    if input.connections.Present? {
      ConnectionsAccumulate(before.serverConfigDict, input.connections.value);
    }
  }

  lemma ExchangedAccumulates(before: ConfigView, input: Input)
    ensures var after := ImportExchanged(before, input).state;
            && before.serverConfigDict == after.serverConfigDict
            && before.exchangedData <= after.exchangedData
            && before.selectedDOInExchangedDatasets.Keys <= after.selectedDOInExchangedDatasets.Keys
  {
    if input.datapoints.Present? {
      RecordsAccumulate(before.exchangedData, input.datapoints.value);
    }
    if input.datasets.Present? {
      DatasetsAccumulate(before.selectedDOInExchangedDatasets, input.datasets.value);
    }
  }

  /** An import, whether it throws or not, removes nothing of what was there: servers and datasets stay (their
      entries may be replaced), datapoints stay in front. */
  lemma ImportsAccumulate(before: ConfigView, input: Input)
    requires WellKeyed(before.serverConfigDict)
    ensures var after := ImportSpec(before, input).state;
            && before.serverConfigDict.Keys <= after.serverConfigDict.Keys && WellKeyed(after.serverConfigDict)
            && before.exchangedData <= after.exchangedData
            && before.selectedDOInExchangedDatasets.Keys <= after.selectedDOInExchangedDatasets.Keys
  {
    ProtocolAccumulates(before, input);
    ExchangedAccumulates(ImportProtocol(before, input).state, input);
  }

  // ---------------------------------------------------------------- import, in place

  class IEC61850ClientConfig {
    var logMinLevel: string
    var assetName: string
    var iedName: string
    var serverConfigDict: ServerConfigDict
    var applicationParams: ApplicationParameters
    var exchangedData: seq<ConfiguredDatapoint>
    var selectedDOInExchangedDatasets: map<string, seq<ConfiguredDatapoint>>

    ghost function View(): ConfigView
      reads this
    {
      ConfigView(logMinLevel, assetName, iedName, serverConfigDict, applicationParams, exchangedData,
                 selectedDOInExchangedDatasets)
    }

    constructor ()
      ensures View() == ConfigView("", "", "", map[], ApplicationParameters(1000, DO_READING), [], map[])
    {
      logMinLevel, assetName, iedName := "", "", "";
      serverConfigDict, exchangedData, selectedDOInExchangedDatasets := map[], [], map[];
      applicationParams := ApplicationParameters(1000, DO_READING);
    }

    method ImportJsonConnections(connections: seq<Section<ServerConnectionParameters>>) returns (threw: bool)
      modifies this`serverConfigDict
      ensures ImportConnections(old(serverConfigDict), connections) == Imported(serverConfigDict, threw)
    {
      var i := 0;
      while i < |connections|
        invariant 0 <= i <= |connections|
        invariant ImportConnections(old(serverConfigDict), connections)
                    == ImportConnections(serverConfigDict, connections[i..])
      {
        if !connections[i].Present? || !IsValidIPAddress(connections[i].value.ipAddress) {
          return true;
        }
        var params := connections[i].value;
        serverConfigDict := serverConfigDict[BuildKey(params) := params];
        i := i + 1;
      }
      threw := false;
    }

    method ImportJsonExchangedData(records: seq<Section<ConfiguredDatapoint>>) returns (threw: bool)
      modifies this`exchangedData
      ensures ImportEach(old(exchangedData), records) == Imported(exchangedData, threw)
    {
      var i := 0;
      while i < |records|
        invariant 0 <= i <= |records|
        invariant ImportEach(old(exchangedData), records) == ImportEach(exchangedData, records[i..])
      {
        if !records[i].Present? {
          return true;
        }
        exchangedData := exchangedData + [records[i].value];
        i := i + 1;
      }
      threw := false;
    }

    method ImportJsonExchangedDatasets(records: seq<Section<DatasetRecord>>) returns (threw: bool)
      modifies this`selectedDOInExchangedDatasets
      ensures ImportDatasets(old(selectedDOInExchangedDatasets), records) == Imported(selectedDOInExchangedDatasets, threw)
    {
      var i := 0;
      while i < |records|
        invariant 0 <= i <= |records|
        invariant ImportDatasets(old(selectedDOInExchangedDatasets), records)
                    == ImportDatasets(selectedDOInExchangedDatasets, records[i..])
      {
        if !records[i].Present? || records[i].value.datasetRef == "" {
          return true;
        }
        var dataset := records[i].value;
        selectedDOInExchangedDatasets := selectedDOInExchangedDatasets[dataset.datasetRef := dataset.dataObjects];
        i := i + 1;
      }
      threw := false;
    }

    method ImportJsonApplicationLayer(input: Input) returns (threw: bool)
      modifies this`applicationParams
      ensures ImportApplication(old(applicationParams), input) == Imported(applicationParams, threw)
    {
      if input.readingPeriod.Malformed? {
        return true;
      }
      if input.readingPeriod.Present? {
        applicationParams := applicationParams.(readPollingPeriodInMs := input.readingPeriod.value % 0x1_0000_0000);
      }
      if input.readMode.Malformed? {
        return true;
      }
      if input.readMode.Present? {
        if input.readMode.value == "dataset" {
          applicationParams := applicationParams.(readMode := DATASET_READING);
        } else {
          applicationParams := applicationParams.(readMode := DO_READING);
        }
      }
      threw := false;
    }

    method ImportJsonProtocolConfig(input: Input) returns (threw: bool)
      modifies this
      ensures ImportProtocol(old(View()), input) == Imported(View(), threw)
    {
      logMinLevel := if input.logMinLevel.Some? then input.logMinLevel.value else "info";
      assetName := "iec61850";
      if input.asset.Some? {
        assetName := input.asset.value;
      }
      if !input.iedName.Present? || !input.connections.Present? {
        return true;
      }
      iedName := input.iedName.value;
      threw := ImportJsonConnections(input.connections.value);
      if threw || !input.hasApplicationLayer {
        return true;
      }
      threw := ImportJsonApplicationLayer(input);
    }

    /** The import: on the way it may throw, and what it had imported by then stays. */
    method ImportConfig(input: Input) returns (threw: bool)
      modifies this
      ensures ImportSpec(old(View()), input) == Imported(View(), threw)
    {
      threw := ImportJsonProtocolConfig(input);
      if threw || input.datapoints.Malformed? {
        return true;
      }
      if input.datapoints.Present? {
        threw := ImportJsonExchangedData(input.datapoints.value);
        if threw {
          return;
        }
      }
      if input.datasets.Malformed? {
        return true;
      }
      if input.datasets.Present? {
        threw := ImportJsonExchangedDatasets(input.datasets.value);
      }
    }
  }
}
