/**
  The two tables between SDK user agents and their numeric Influx ids, the normalisation of user
  agents, and the mapping of labels to Influx record values and back.
 */
module SdkTables {
  import opened Options
  import opened Sequences
  import opened LabelSets

  /** The versions known of each SDK, and the ids the SDKs' first versions get. */
  type Versions = map<string, seq<string>>
  type Ids = seq<(string, int)>

  // ----- User agents -----

  /** `value.partition("/")`, without the separator. */
  function Partition(value: string): (string, string)
  {
    if value == [] then ("", "")
    else if value[0] == '/' then ("", value[1..])
    else
      var rest := Partition(value[1..]);
      ([value[0]] + rest.0, rest.1)
  }

  function Agent(name: string, version: string): string
  {
    name + "/" + version
  }

  function Normalise(value: string, known: Versions): Option<string>
  {
    var (name, version) := Partition(value);
    if name !in known then None else if version in known[name] then Some(value) else Some(Agent(name, "unknown"))
  }

  /** Names are free of the separator, and every SDK has an unknown version but no empty one. */
  predicate WellNamed(known: Versions)
  {
    forall name :: name in known ==> '/' !in name && "unknown" in known[name] && "" !in known[name]
  }

  lemma {:induction false} PartitionAgent(name: string, version: string)
    requires '/' !in name
    ensures Partition(Agent(name, version)) == (name, version)
  {
    if name == [] {
      assert Agent(name, version)[1..] == version;
    } else {
      assert Agent(name, version)[1..] == Agent(name[1..], version);
      PartitionAgent(name[1..], version);
      assert name == [name[0]] + name[1..];
    }
  }

  lemma {:induction false} JoinParts(value: string)
    ensures var (name, version) := Partition(value);
            '/' !in name && value == (if '/' in value then Agent(name, version) else name)
    ensures '/' !in value ==> Partition(value).1 == ""
  {
    if value != [] {
      assert value == [value[0]] + value[1..];
      if value[0] == '/' {
        assert value == Agent("", value[1..]);
      } else {
        JoinParts(value[1..]);
        assert [value[0]] + Agent(Partition(value[1..]).0, Partition(value).1) ==
               Agent(Partition(value).0, Partition(value).1);
      }
    }
  }

  /**
    A user agent of a known SDK keeps a known version and has any other one, or none, replaced by the
    unknown version; a user agent of no known SDK is dropped.
   */
  lemma NormaliseSpec(name: string, version: string, known: Versions)
    requires '/' !in name
    ensures name !in known ==> Normalise(name + "/" + version, known) == None && Normalise(name, known) == None
    ensures name in known && version in known[name] ==>
            Normalise(name + "/" + version, known) == Some(name + "/" + version)
    ensures name in known && version !in known[name] ==>
              Normalise(name + "/" + version, known) == Some(name + "/" + "unknown")
    ensures name in known && "" !in known[name] ==> Normalise(name, known) == Some(name + "/" + "unknown")
  {
    PartitionAgent(name, version);
    JoinParts(name);
  }

  lemma NormaliseIsIdempotent(value: string, known: Versions)
    requires WellNamed(known) && Normalise(value, known).Some?
    ensures Normalise(Normalise(value, known).value, known) == Normalise(value, known)
  {
    PartitionAgent(Partition(value).0, "unknown");
  }

  // ----- Building the tables -----

  function SdkEntries(name: string, id: int, versions: seq<string>): seq<(int, string)>
  {
    seq(|versions|, k requires 0 <= k < |versions| => (id + k, Agent(name, versions[k])))
  }

  /** What the two loops visit, in order. */
  function Entries(ids: Ids, known: Versions): seq<(int, string)>
    requires forall i :: 0 <= i < |ids| ==> ids[i].0 in known
  {
    if ids == [] then []
    else
      var last := ids[|ids| - 1];
      Entries(ids[..|ids| - 1], known) + SdkEntries(last.0, last.1, known[last.0])
  }

  /** Later entries overwrite earlier ones. */
  function ById(entries: seq<(int, string)>): map<int, string>
  {
    if entries == [] then map[] else ById(entries[..|entries| - 1])[entries[|entries| - 1].0 :=
                                                                    entries[|entries| - 1].1]
  }

  function ByAgent(entries: seq<(int, string)>): map<string, int>
  {
    if entries == [] then map[] else ByAgent(entries[..|entries| - 1])[entries[|entries| - 1].1 :=
        entries[|entries| - 1].0]
  }

  method BuildTables(ids: Ids, known: Versions) returns (byId: map<int, string>, byAgent: map<string, int>)
    requires forall i :: 0 <= i < |ids| ==> ids[i].0 in known
    ensures byId == ById(Entries(ids, known)) && byAgent == ByAgent(Entries(ids, known))
  {
    byId, byAgent := map[], map[];
    ghost var entries := [];
    for i := 0 to |ids|
      invariant entries == Entries(ids[..i], known) && byId == ById(entries) && byAgent == ByAgent(entries)
    {
      var (name, id) := ids[i];
      ghost var before := entries;
      for k := 0 to |known[name]|
        invariant entries == before + SdkEntries(name, id, known[name])[..k] && byId == ById(entries) &&
                  byAgent == ByAgent(entries)
      {
        var agent := Agent(name, known[name][k]);
        byId := byId[id + k := agent];
        byAgent := byAgent[agent := id + k];
        assert (entries + [(id + k, agent)])[..|entries|] == entries;
        entries := entries + [(id + k, agent)];
      }
      assert ids[..i + 1][..i] == ids[..i];
      assert SdkEntries(name, id, known[name])[..|known[name]|] == SdkEntries(name, id, known[name]);
    }
    assert ids[..|ids|] == ids;
  }

  ghost predicate MutualInverses(byId: map<int, string>, byAgent: map<string, int>)
  {
    && (forall id :: id in byId ==> byId[id] in byAgent && byAgent[byId[id]] == id)
    && (forall agent :: agent in byAgent ==> byAgent[agent] in byId && byId[byAgent[agent]] == agent)
  }

  ghost predicate DistinctIds(entries: seq<(int, string)>)
  {
    forall i, j :: 0 <= i < j < |entries| ==> entries[i].0 != entries[j].0
  }

  ghost predicate DistinctAgents(entries: seq<(int, string)>)
  {
    forall i, j :: 0 <= i < j < |entries| ==> entries[i].1 != entries[j].1
  }

  lemma {:induction false} ByIdAt(entries: seq<(int, string)>, id: int, agent: string)
    requires DistinctIds(entries)
    ensures (id in ById(entries) && ById(entries)[id] == agent) <==> (id, agent) in entries
  {
    if entries != [] {
      var init, last := entries[..|entries| - 1], entries[|entries| - 1];
      ByIdAt(init, id, agent);
      assert entries == init + [last];
      assert forall i :: 0 <= i < |init| ==> init[i].0 != last.0;
    }
  }

  lemma {:induction false} ByAgentAt(entries: seq<(int, string)>, id: int, agent: string)
    requires DistinctAgents(entries)
    ensures (agent in ByAgent(entries) && ByAgent(entries)[agent] == id) <==> (id, agent) in entries
  {
    if entries != [] {
      var init, last := entries[..|entries| - 1], entries[|entries| - 1];
      ByAgentAt(init, id, agent);
      assert entries == init + [last];
      assert forall i :: 0 <= i < |init| ==> init[i].1 != last.1;
    }
  }

  /** With distinct ids, the tables are mutual inverses exactly if the user agents are distinct too. */
  lemma InversesIffDistinctAgents(entries: seq<(int, string)>)
    requires DistinctIds(entries)
    ensures MutualInverses(ById(entries), ByAgent(entries)) <==> DistinctAgents(entries)
  {
    if DistinctAgents(entries) {
      forall id | id in ById(entries)
        ensures ById(entries)[id] in ByAgent(entries) && ByAgent(entries)[ById(entries)[id]] == id
      {
        ByIdAt(entries, id, ById(entries)[id]);
        ByAgentAt(entries, id, ById(entries)[id]);
      }
      forall agent | agent in ByAgent(entries)
        ensures ByAgent(entries)[agent] in ById(entries) && ById(entries)[ByAgent(entries)[agent]] == agent
      {
        ByAgentAt(entries, ByAgent(entries)[agent], agent);
        ByIdAt(entries, ByAgent(entries)[agent], agent);
      }
    } else {
      var i, j :| 0 <= i < j < |entries| && entries[i].1 == entries[j].1;
      ByIdAt(entries, entries[i].0, entries[i].1);
      ByIdAt(entries, entries[j].0, entries[j].1);
    }
  }

  /** The id ranges of different SDKs do not overlap. */
  ghost predicate Spaced(ids: Ids, known: Versions)
  {
    && (forall i :: 0 <= i < |ids| ==> ids[i].0 in known)
    && forall i, j :: 0 <= i < j < |ids| ==> ids[i].1 + |known[ids[i].0]| <= ids[j].1
  }

  ghost predicate DistinctNames(ids: Ids)
  {
    forall i, j :: 0 <= i < j < |ids| ==> ids[i].0 != ids[j].0
  }

  /** Where an entry comes from. */
  lemma {:induction false} Origin(ids: Ids, known: Versions, x: nat) returns (i: nat, k: nat)
    requires (forall i :: 0 <= i < |ids| ==> ids[i].0 in known) && x < |Entries(ids, known)|
    ensures i < |ids| && k < |known[ids[i].0]|
    ensures Entries(ids, known)[x] == (ids[i].1 + k, Agent(ids[i].0, known[ids[i].0][k]))
  {
    var n := |ids| - 1;
    var before := Entries(ids[..n], known);
    if x < |before| {
      i, k := Origin(ids[..n], known, x);
    } else {
      i, k := n, x - |before|;
    }
  }

  lemma {:induction false} SpacedIdsAreDistinct(ids: Ids, known: Versions)
    requires Spaced(ids, known)
    ensures DistinctIds(Entries(ids, known))
  {
    if ids != [] {
      var n := |ids| - 1;
      var before := Entries(ids[..n], known);
      SpacedIdsAreDistinct(ids[..n], known);
      forall x: nat | x < |before| ensures before[x].0 < ids[n].1 {
        var i, k := Origin(ids[..n], known, x);
      }
    }
  }

  lemma DifferentSdks(name: string, version: string, name': string, version': string)
    requires '/' !in name && '/' !in name' && name != name'
    ensures Agent(name, version) != Agent(name', version')
  {
    PartitionAgent(name, version);
    PartitionAgent(name', version');
  }

  lemma DifferentVersions(name: string, version: string, version': string)
    requires '/' !in name && version != version'
    ensures Agent(name, version) != Agent(name, version')
  {
    PartitionAgent(name, version);
    PartitionAgent(name, version');
  }

  lemma {:induction false} AgentsDistinctIfVersionsAre(ids: Ids, known: Versions)
    requires (forall i :: 0 <= i < |ids| ==> ids[i].0 in known && '/' !in ids[i].0) && DistinctNames(ids)
    requires forall i :: 0 <= i < |ids| ==> Distinct(known[ids[i].0])
    ensures DistinctAgents(Entries(ids, known))
  {
    if ids != [] {
      var n := |ids| - 1;
      var before, after := Entries(ids[..n], known), SdkEntries(ids[n].0, ids[n].1, known[ids[n].0]);
      AgentsDistinctIfVersionsAre(ids[..n], known);
      forall x: nat, k: nat | x < |before| && k < |after| ensures before[x].1 != after[k].1 {
        var i, l := Origin(ids[..n], known, x);
        DifferentSdks(ids[i].0, known[ids[i].0][l], ids[n].0, known[ids[n].0][k]);
      }
      forall k: nat, l: nat | k < l < |after| ensures after[k].1 != after[l].1 {
        DifferentVersions(ids[n].0, known[ids[n].0][k], known[ids[n].0][l]);
      }
    }
  }

  lemma {:induction false} EntryOf(ids: Ids, known: Versions, i: nat, k: nat) returns (x: nat)
    requires forall i :: 0 <= i < |ids| ==> ids[i].0 in known
    requires i < |ids| && k < |known[ids[i].0]|
    ensures x < |Entries(ids, known)| && Entries(ids, known)[x] == (ids[i].1 + k, Agent(ids[i].0, known[ids[i].0][k]))
  {
    var n := |ids| - 1;
    if i < n {
      x := EntryOf(ids[..n], known, i, k);
    } else {
      x := |Entries(ids[..n], known)| + k;
    }
  }

  /** The tables of well-spaced SDKs are mutual inverses exactly if no SDK lists a version twice. */
  lemma TablesAreInversesIff(ids: Ids, known: Versions)
    requires Spaced(ids, known) && DistinctNames(ids) && forall i :: 0 <= i < |ids| ==> '/' !in ids[i].0
    ensures MutualInverses(ById(Entries(ids, known)), ByAgent(Entries(ids, known))) <==>
            forall i :: 0 <= i < |ids| ==> Distinct(known[ids[i].0])
  {
    SpacedIdsAreDistinct(ids, known);
    InversesIffDistinctAgents(Entries(ids, known));
    if forall i :: 0 <= i < |ids| ==> Distinct(known[ids[i].0]) {
      AgentsDistinctIfVersionsAre(ids, known);
    } else {
      var i :| 0 <= i < |ids| && !Distinct(known[ids[i].0]);
      var k, l :| 0 <= k < l < |known[ids[i].0]| && known[ids[i].0][k] == known[ids[i].0][l];
      var x := EntryOf(ids, known, i, k);
      var y := EntryOf(ids, known, i, l);
      assert Entries(ids, known)[x].0 != Entries(ids, known)[y].0;
      assert Entries(ids, known)[x].1 == Entries(ids, known)[y].1;
    }
  }

  lemma {:induction false} ByAgentKeys(entries: seq<(int, string)>, agent: string)
    ensures agent in ByAgent(entries) <==> exists x :: 0 <= x < |entries| && entries[x].1 == agent
  {
    if entries != [] {
      var n := |entries| - 1;
      ByAgentKeys(entries[..n], agent);
      assert forall x :: 0 <= x < n ==> entries[..n][x] == entries[x];
    }
  }

  /** The ids list exactly the known SDKs. */
  ghost predicate Listed(ids: Ids, known: Versions)
  {
    && (forall i :: 0 <= i < |ids| ==> ids[i].0 in known)
    && forall name :: name in known ==> exists i :: 0 <= i < |ids| && ids[i].0 == name
  }

  lemma KnownVersionIsTabled(ids: Ids, known: Versions, name: string, version: string)
    requires Listed(ids, known) && name in known && version in known[name]
    ensures Agent(name, version) in ByAgent(Entries(ids, known))
  {
    var i :| 0 <= i < |ids| && ids[i].0 == name;
    var k :| 0 <= k < |known[name]| && known[name][k] == version;
    var x := EntryOf(ids, known, i, k);
    ByAgentKeys(Entries(ids, known), Agent(name, version));
  }

  /** Every user agent that normalisation lets through has an id. */
  lemma NormalisedHasId(value: string, ids: Ids, known: Versions)
    requires WellNamed(known) && Listed(ids, known) && Normalise(value, known).Some?
    ensures Normalise(value, known).value in ByAgent(Entries(ids, known))
  {
    var (name, version) := Partition(value);
    JoinParts(value);
    if version in known[name] {
      KnownVersionIsTabled(ids, known, name, version);
    } else {
      KnownVersionIsTabled(ids, known, name, "unknown");
    }
  }

  /** The user agents with an id are exactly those that normalisation leaves alone. */
  lemma NormalisedIffTabled(agent: string, ids: Ids, known: Versions)
    requires WellNamed(known) && Listed(ids, known)
    ensures agent in ByAgent(Entries(ids, known)) <==> Normalise(agent, known) == Some(agent)
  {
    if Normalise(agent, known) == Some(agent) {
      NormalisedHasId(agent, ids, known);
    }
    ByAgentKeys(Entries(ids, known), agent);
    if agent in ByAgent(Entries(ids, known)) {
      var x :| 0 <= x < |Entries(ids, known)| && Entries(ids, known)[x].1 == agent;
      var i, k := Origin(ids, known, x);
      PartitionAgent(ids[i].0, known[ids[i].0][k]);
    }
  }

  // ----- Labels to Influx record values and back -----

  const LABELS: seq<string> := ["client_application_name", "client_application_version", "user_agent"]
  const USER_AGENT := "user_agent"

  datatype InfluxValue = Text(text: string) | Number(number: int) | Null

  predicate Truthy(v: InfluxValue)
  {
    match v
    case Text(t) => t != ""
    case Number(n) => n != 0
    case Null => false
  }

  /** `int(value)`; what it makes of a text is left open. */
  function IntOf(v: InfluxValue, parse: string -> Option<int>): Option<int>
  {
    match v
    case Text(t) => parse(t)
    case Number(n) => Some(n)
    case Null => None
  }

  /** The record value of one label, if it gets one. */
  function ValueOf(item: Item, byAgent: map<string, int>): Option<InfluxValue>
  {
    if item.name != USER_AGENT then Some(Text(item.value))
    else if item.value in byAgent then Some(Number(byAgent[item.value]))
    else None
  }

  function RecordValues(labels: seq<Item>, byAgent: map<string, int>): map<string, InfluxValue>
  {
    if labels == [] then map[]
    else
      var init, last := RecordValues(labels[..|labels| - 1], byAgent), labels[|labels| - 1];
      var value := ValueOf(last, byAgent);
      if value.Some? then init[last.name := value.value] else init
  }

  method MapLabelsToRecordValues(labels: seq<Item>, byAgent: map<string, int>)
    returns (values: map<string, InfluxValue>)
    ensures values == RecordValues(labels, byAgent)
  {
    values := map[];
    for i := 0 to |labels|
      invariant values == RecordValues(labels[..i], byAgent)
    {
      assert labels[..i + 1][..i] == labels[..i];
      if labels[i].name == USER_AGENT {
        if labels[i].value in byAgent {
          values := values[USER_AGENT := Number(byAgent[labels[i].value])];
        }
        continue;
      }
      values := values[labels[i].name := Text(labels[i].value)];
    }
    assert labels[..|labels|] == labels;
  }

  /** What a record's value becomes as a label, if it becomes one. */
  function LabelOf(name: string, values: map<string, InfluxValue>, byId: map<int, string>,
                   parse: string -> Option<int>): Option<InfluxValue>
  {
    if name !in values then None
    else if name != USER_AGENT then if Truthy(values[name]) then Some(values[name]) else None
    else
      var id := IntOf(values[name], parse);
      if id.Some? && id.value in byId && byId[id.value] != "" then Some(Text(byId[id.value])) else None
  }

  /**
    A value comes back as a label exactly if it is there and not empty, nor the number 0; a user agent,
    if it is an integer with an entry that is not empty, whose text comes back for it.
   */
  lemma LabelIff(name: string, values: map<string, InfluxValue>, byId: map<int, string>, parse: string -> Option<int>,
                 agent: string)
    ensures name != "user_agent" ==>
              && (LabelOf(name, values, byId, parse).Some? <==>
                    name in values && values[name] !in {Text(""), Number(0), Null})
              && (LabelOf(name, values, byId, parse).Some? ==>
                    LabelOf(name, values, byId, parse) == Some(values[name]))
    ensures name == "user_agent" ==>
              (LabelOf(name, values, byId, parse) == Some(Text(agent)) <==>
                 && name in values && agent != ""
                 && exists id :: id in byId && byId[id] == agent
                      && (values[name] == Number(id) || (values[name].Text? && parse(values[name].text) == Some(id))))
  {
    if name == "user_agent" && LabelOf(name, values, byId, parse) == Some(Text(agent)) {
      var id := IntOf(values[name], parse).value;
      assert id in byId && byId[id] == agent;
    }
  }

  function LabelsOf(names: seq<string>, values: map<string, InfluxValue>, byId: map<int, string>,
                    parse: string -> Option<int>)
    : (labels: map<string, InfluxValue>)
    ensures forall name :: name in labels <==> name in names && LabelOf(name, values, byId, parse).Some?
    ensures forall name :: name in labels ==> Some(labels[name]) == LabelOf(name, values, byId, parse)
  {
    if names == [] then map[]
    else
      var n := |names| - 1;
      assert names == names[..n] + [names[n]];
      var init := LabelsOf(names[..n], values, byId, parse);
      var found := LabelOf(names[n], values, byId, parse);
      if found.Some? then init[names[n] := found.value] else init
  }

  method MapRecordValuesToLabels(values: map<string, InfluxValue>, byId: map<int, string>, parse: string -> Option<int>)
    returns (labels: map<string, InfluxValue>)
    ensures labels == LabelsOf(LABELS, values, byId, parse)
  {
    labels := map[];
    for i := 0 to |LABELS|
      invariant labels == LabelsOf(LABELS[..i], values, byId, parse)
    {
      var name := LABELS[i];
      assert LABELS[..i + 1][..i] == LABELS[..i];
      if name == USER_AGENT {
        if name in values {
          var id := IntOf(values[name], parse);
          if id.Some? {
            if id.value in byId && byId[id.value] != "" {
              labels := labels[name := Text(byId[id.value])];
            }
          }
        }
        continue;
      }
      if name in values && Truthy(values[name]) {
        labels := labels[name := values[name]];
      }
    }
    assert LABELS[..|LABELS|] == LABELS;
  }

  lemma AbsentName(labels: seq<Item>, name: string)
    requires DistinctLabels(labels) && forall i :: 0 <= i < |labels| ==> labels[i].name != name
    ensures name !in AsMap(labels)
  {
  }

  lemma {:induction false} RecordValueAt(labels: seq<Item>, byAgent: map<string, int>, name: string)
    requires DistinctLabels(labels)
    ensures name in RecordValues(labels, byAgent) <==>
            name in AsMap(labels) && ValueOf(Item(name, AsMap(labels)[name]), byAgent).Some?
    ensures name in RecordValues(labels, byAgent) ==>
              Some(RecordValues(labels, byAgent)[name]) == ValueOf(Item(name, AsMap(labels)[name]), byAgent)
  {
    if labels != [] {
      var init, last := labels[..|labels| - 1], labels[|labels| - 1];
      RecordValueAt(init, byAgent, name);
      if name == last.name {
        AbsentName(init, name);
      }
    }
  }

  /** A label survives the way to Influx and back. */
  predicate Survives(name: string, value: string, byAgent: map<string, int>)
  {
    if name == USER_AGENT then value in byAgent else value != ""
  }

  /** One label's way there and back. */
  lemma LabelRoundTrip(labels: seq<Item>, byId: map<int, string>, byAgent: map<string, int>,
                       parse: string -> Option<int>, name: string)
    requires DistinctLabels(labels) && MutualInverses(byId, byAgent) && "" !in byAgent
    ensures LabelOf(name, RecordValues(labels, byAgent), byId, parse) ==
            if name in AsMap(labels) && Survives(name, AsMap(labels)[name], byAgent)
                then Some(Text(AsMap(labels)[name])) else None
  {
    RecordValueAt(labels, byAgent, name);
  }

  /** Mapping labels to Influx and back is the identity exactly if every label survives. */
  lemma RoundTripIff(labels: seq<Item>, byId: map<int, string>, byAgent: map<string, int>, parse: string -> Option<int>)
    requires DistinctLabels(labels) && (forall i :: 0 <= i < |labels| ==> labels[i].name in LABELS)
    requires MutualInverses(byId, byAgent) && "" !in byAgent
    ensures LabelsOf(LABELS, RecordValues(labels, byAgent), byId, parse) ==
            (map name | name in AsMap(labels) :: Text(AsMap(labels)[name]))
            <==> forall name :: name in AsMap(labels) ==> Survives(name, AsMap(labels)[name], byAgent)
  {
    var back := LabelsOf(LABELS, RecordValues(labels, byAgent), byId, parse);
    var original := map name | name in AsMap(labels) :: Text(AsMap(labels)[name]);
    forall name
      ensures name in back <==> name in AsMap(labels) && Survives(name, AsMap(labels)[name], byAgent)
      ensures name in back ==> back[name] == Text(AsMap(labels)[name])
    {
      LabelRoundTrip(labels, byId, byAgent, parse, name);
      if name in AsMap(labels) {
        AsMapAt(labels, name, AsMap(labels)[name]);
        assert name in LABELS;
      }
    }
    if back == original {
      forall name | name in AsMap(labels) ensures Survives(name, AsMap(labels)[name], byAgent) {
        assert name in original;
      }
    }
    if forall name :: name in AsMap(labels) ==> Survives(name, AsMap(labels)[name], byAgent) {
      assert back.Keys == original.Keys;
    }
  }

  // ----- The tables as shipped -----

  const KNOWN_VERSIONS: Versions := map[
    "flagsmith-dotnet-sdk" := ["unknown", "9.0.0"],
    "flagsmith-elixir-sdk" := ["unknown", "2.3.0", "2.3.1"],
    "flagsmith-flutter-sdk" := ["unknown", "6.1.0", "6.1.1"],
    "flagsmith-go-sdk" := ["unknown", "5.0.0", "5.1.0", "5.2.0"],
    "flagsmith-java-sdk" := ["unknown", "8.0.0", "8.0.1", "8.0.2", "8.1.0", "8.1.1"],
    "flagsmith-js-sdk" := ["unknown", "9.3.1", "10.0.0", "12.0.0", "12.0.1", "12.1.0", "12.1.2"],
    "flagsmith-kotlin-android-sdk" := ["unknown", "1.9.0"],
    "flagsmith-nodejs-sdk" :=
      ["unknown", "6.2.0", "7.0.2", "7.0.3", "8.0.0", "8.0.1", "8.0.2", "8.1.0", "8.1.1", "8.1.2", "9.0.0"],
    "flagsmith-php-sdk" := ["unknown", "5.0.0", "5.1.0", "5.1.1"],
    "flagsmith-python-sdk" :=
      ["unknown", "5.0.0", "5.0.1", "5.0.2", "5.0.3", "5.1.0", "5.1.1", "5.2.0", "5.3.0", "5.3.1", "5.4.0", "5.5.0",
       "6.0.0", "6.1.0", "6.2.0", "6.2.1"],
    "flagsmith-ruby-sdk" := ["unknown", "5.0.0"],
    "flagsmith-rust-sdk" := ["unknown", "2.1.0", "2.1.1", "3.0.0"],
    "flagsmith-swift-ios-sdk" := ["unknown", "3.10.0"]
  ]

  const INFLUX_IDS: Ids := [
    ("flagsmith-dotnet-sdk", 0),
    ("flagsmith-elixir-sdk", 10000),
    ("flagsmith-flutter-sdk", 20000),
    ("flagsmith-go-sdk", 30000),
    ("flagsmith-java-sdk", 40000),
    ("flagsmith-js-sdk", 50000),
    ("flagsmith-kotlin-android-sdk", 60000),
    ("flagsmith-nodejs-sdk", 70000),
    ("flagsmith-php-sdk", 80000),
    ("flagsmith-python-sdk", 90000),
    ("flagsmith-ruby-sdk", 100000),
    ("flagsmith-rust-sdk", 110000),
    ("flagsmith-swift-ios-sdk", 120000)
  ]

  const SPACING := 10000

  ghost predicate WellFormedSdk(name: string)
  {
    && '/' !in name && name in KNOWN_VERSIONS && |KNOWN_VERSIONS[name]| <= SPACING
    && Distinct(KNOWN_VERSIONS[name]) && "unknown" in KNOWN_VERSIONS[name] && "" !in KNOWN_VERSIONS[name]
  }

  lemma FirstFourAreWellFormed(i: nat)
    requires 0 <= i < 4
    ensures WellFormedSdk(INFLUX_IDS[i].0)
  {
  }

  lemma NextThreeAreWellFormed(i: nat)
    requires 4 <= i < 7
    ensures WellFormedSdk(INFLUX_IDS[i].0)
  {
  }

  lemma NextTwoAreWellFormed(i: nat)
    requires 7 <= i < 9
    ensures WellFormedSdk(INFLUX_IDS[i].0)
  {
  }

  lemma LastFourAreWellFormed(i: nat)
    requires 9 <= i < 13
    ensures WellFormedSdk(INFLUX_IDS[i].0)
  {
  }

  lemma NamesDiffer()
    ensures DistinctNames(INFLUX_IDS)
  {
  }

  lemma AllListed(name: string)
    requires name in KNOWN_VERSIONS
    ensures exists i :: 0 <= i < |INFLUX_IDS| && INFLUX_IDS[i].0 == name
  {
    assert INFLUX_IDS[0].0 == "flagsmith-dotnet-sdk";
    assert INFLUX_IDS[1].0 == "flagsmith-elixir-sdk";
    assert INFLUX_IDS[2].0 == "flagsmith-flutter-sdk";
    assert INFLUX_IDS[3].0 == "flagsmith-go-sdk";
    assert INFLUX_IDS[4].0 == "flagsmith-java-sdk";
    assert INFLUX_IDS[5].0 == "flagsmith-js-sdk";
    assert INFLUX_IDS[6].0 == "flagsmith-kotlin-android-sdk";
    assert INFLUX_IDS[7].0 == "flagsmith-nodejs-sdk";
    assert INFLUX_IDS[8].0 == "flagsmith-php-sdk";
    assert INFLUX_IDS[9].0 == "flagsmith-python-sdk";
    assert INFLUX_IDS[10].0 == "flagsmith-ruby-sdk";
    assert INFLUX_IDS[11].0 == "flagsmith-rust-sdk";
    assert INFLUX_IDS[12].0 == "flagsmith-swift-ios-sdk";
  }

  lemma ShippedAreWellFormed(i: nat)
    requires i < |INFLUX_IDS|
    ensures WellFormedSdk(INFLUX_IDS[i].0)
  {
    if i < 4 {
      FirstFourAreWellFormed(i);
    } else if i < 7 {
      NextThreeAreWellFormed(i);
    } else if i < 9 {
      NextTwoAreWellFormed(i);
    } else {
      LastFourAreWellFormed(i);
    }
  }

  lemma ShippedAreSpaced()
    ensures forall i :: 0 <= i < |INFLUX_IDS| ==> INFLUX_IDS[i].1 == SPACING * i
  {
  }

  lemma ShippedHypotheses()
    ensures Listed(INFLUX_IDS, KNOWN_VERSIONS) && Spaced(INFLUX_IDS, KNOWN_VERSIONS) && WellNamed(KNOWN_VERSIONS)
    ensures forall i :: 0 <= i < |INFLUX_IDS| ==> '/' !in INFLUX_IDS[i].0 && Distinct(KNOWN_VERSIONS[INFLUX_IDS[i].0])
  {
    forall i: nat | i < |INFLUX_IDS| ensures WellFormedSdk(INFLUX_IDS[i].0) {
      ShippedAreWellFormed(i);
    }
    ShippedAreSpaced();
    forall name | name in KNOWN_VERSIONS ensures exists i :: 0 <= i < |INFLUX_IDS| && INFLUX_IDS[i].0 == name {
      AllListed(name);
    }
  }

  /** The shipped tables are mutual inverses, and every normalised user agent has an id. */
  lemma ShippedTables(value: string)
    ensures MutualInverses(ById(Entries(INFLUX_IDS, KNOWN_VERSIONS)), ByAgent(Entries(INFLUX_IDS, KNOWN_VERSIONS)))
    ensures value in ByAgent(Entries(INFLUX_IDS, KNOWN_VERSIONS)) <==> Normalise(value, KNOWN_VERSIONS) == Some(value)
    ensures Normalise(value, KNOWN_VERSIONS).Some? ==>
              Normalise(value, KNOWN_VERSIONS).value in ByAgent(Entries(INFLUX_IDS, KNOWN_VERSIONS))
  {
    ShippedHypotheses();
    NamesDiffer();
    TablesAreInversesIff(INFLUX_IDS, KNOWN_VERSIONS);
    NormalisedIffTabled(value, INFLUX_IDS, KNOWN_VERSIONS);
    if Normalise(value, KNOWN_VERSIONS).Some? {
      NormalisedHasId(value, INFLUX_IDS, KNOWN_VERSIONS);
    }
  }
}
