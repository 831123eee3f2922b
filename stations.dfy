/**
 * The station data returned by the getstationsdata endpoint and the indexes
 * the client builds from it: the station list (station id to name), the
 * module index (every station and submodule by id) and the hierarchy
 * (station id to the ids of its submodules).
 *
 * Module ids are opaque keys.  Dictionary assignment is modelled by Assign:
 * the pairs are written one after the other, so a later pair with the same
 * key replaces an earlier one.
 */
module Stations {
  import opened Wrappers

  type ModuleId = string

  /** A module's dashboard_data; the index reads only its integer CO2 reading. */
  type Dashboard = map<string, int>

  /** The user's administrative settings (units), copied into every module. */
  type Administrative = map<string, int>

  datatype Submodule = Submodule(id: ModuleId, moduleType: string, moduleName: string,
                                 dataType: seq<string>, dashboardData: Dashboard)

  datatype Device = Device(id: ModuleId, moduleType: string, moduleName: string, stationName: string,
                           dataType: seq<string>, dashboardData: Dashboard, modules: seq<Submodule>)

  /** The body of a getstationsdata response: its devices and the user's administrative settings. */
  datatype StationData = StationData(devices: seq<Device>, administrative: Administrative)

  /** The has_* flags of a module. */
  datatype Capabilities = Capabilities(co2: bool, humidity: bool, noise: bool, pressure: bool,
                                       rain: bool, temperature: bool, wind: bool)

  /**
   * A WeatherstationModule as its initialiser stores it.  The initialiser
   * accepts a parent id and an is_child flag but keeps neither, so a record
   * carries no link to its station.  `co2` is the attribute the CO2 pass adds.
   */
  datatype WeatherstationModule = WeatherstationModule(
    moduleId: ModuleId, moduleType: string, moduleName: string, isParent: bool, stationName: string,
    caps: Capabilities, administrative: Administrative, dashboardData: Dashboard, co2: Option<int>)

  /** Whether a module reports the measurement `wanted`. */
  function HasDataType(typesAvailable: seq<string>, wanted: string): (r: bool)
    ensures r <==> exists i | 0 <= i < |typesAvailable| :: typesAvailable[i] == wanted
  {
    wanted in typesAvailable
  }

  const CO2: string := "CO2"

  /** The flags of a module reporting `dataType`. */
  function CapabilitiesOf(dataType: seq<string>): Capabilities {
    Capabilities(co2 := HasDataType(dataType, CO2),
                 humidity := HasDataType(dataType, "Humidity"),
                 noise := HasDataType(dataType, "Noise"),
                 pressure := HasDataType(dataType, "Pressure"),
                 rain := HasDataType(dataType, "Rain"),
                 temperature := HasDataType(dataType, "Temperature"),
                 wind := HasDataType(dataType, "Wind"))
  }

  /** The record of a station (a device). */
  function StationRecord(d: Device, admin: Administrative): WeatherstationModule {
    WeatherstationModule(d.id, d.moduleType, d.moduleName, true, d.stationName,
                         CapabilitiesOf(d.dataType), admin, d.dashboardData, None)
  }

  /** The record of a submodule: not a parent, and with an empty station name. */
  function SubmoduleRecord(s: Submodule, admin: Administrative): WeatherstationModule {
    WeatherstationModule(s.id, s.moduleType, s.moduleName, false, "",
                         CapabilitiesOf(s.dataType), admin, s.dashboardData, None)
  }

  // ----- Dictionary assignment -----

  /** `base` after `m[k] := v` for each pair (k, v), in order. */
  function Assign<K, V>(base: map<K, V>, pairs: seq<(K, V)>): map<K, V>
    decreases |pairs|
  {
    if pairs == [] then base
    else Assign(base, pairs[..|pairs| - 1])[pairs[|pairs| - 1].0 := pairs[|pairs| - 1].1]
  }

  predicate DistinctKeys<K(==), V>(pairs: seq<(K, V)>) {
    forall i, j | 0 <= i < j < |pairs| :: pairs[i].0 != pairs[j].0
  }

  lemma AssignStep<K, V>(base: map<K, V>, pairs: seq<(K, V)>, p: (K, V))
    ensures Assign(base, pairs + [p]) == Assign(base, pairs)[p.0 := p.1]
  {
    assert (pairs + [p])[..|pairs|] == pairs;
  }

  /** The keys after the assignments are the base's and the pairs'. */
  lemma {:induction false} AssignKeys<K, V>(base: map<K, V>, pairs: seq<(K, V)>, k: K)
    ensures k in Assign(base, pairs) <==> k in base || exists i | 0 <= i < |pairs| :: pairs[i].0 == k
    decreases |pairs|
  {
    if pairs != [] {
      var n := |pairs| - 1;
      AssignKeys(base, pairs[..n], k);
      if k in base || exists i | 0 <= i < |pairs| :: pairs[i].0 == k {
        if k !in base && pairs[n].0 != k {
          var i :| 0 <= i < |pairs| && pairs[i].0 == k;
          assert pairs[..n][i].0 == k;
        }
      }
    }
  }

  /** The last pair with a key decides that key's value. */
  lemma {:induction false} AssignLast<K, V>(base: map<K, V>, pairs: seq<(K, V)>, i: nat)
    requires i < |pairs|
    requires forall j | i < j < |pairs| :: pairs[j].0 != pairs[i].0
    ensures pairs[i].0 in Assign(base, pairs) && Assign(base, pairs)[pairs[i].0] == pairs[i].1
    decreases |pairs|
  {
    var n := |pairs| - 1;
    if i < n {
      AssignLast(base, pairs[..n], i);
    }
  }

  /** A key no pair names keeps its base value. */
  lemma {:induction false} AssignKeeps<K, V>(base: map<K, V>, pairs: seq<(K, V)>, k: K)
    requires k in base
    requires forall j | 0 <= j < |pairs| :: pairs[j].0 != k
    ensures k in Assign(base, pairs) && Assign(base, pairs)[k] == base[k]
    decreases |pairs|
  {
    if pairs != [] {
      var n := |pairs| - 1;
      assert forall j | 0 <= j < n :: pairs[..n][j] == pairs[j];
      AssignKeeps(base, pairs[..n], k);
    }
  }

  /** Every value after the assignments is the base's or some pair's. */
  lemma {:induction false} AssignValueFrom<K, V>(base: map<K, V>, pairs: seq<(K, V)>, k: K)
    requires k in Assign(base, pairs)
    ensures (exists i | 0 <= i < |pairs| :: pairs[i] == (k, Assign(base, pairs)[k]))
         || (k in base && base[k] == Assign(base, pairs)[k])
    decreases |pairs|
  {
    if pairs != [] {
      var n := |pairs| - 1;
      if pairs[n].0 != k {
        AssignValueFrom(base, pairs[..n], k);
        if exists i | 0 <= i < n :: pairs[..n][i] == (k, Assign(base, pairs[..n])[k]) {
          var i :| 0 <= i < n && pairs[..n][i] == (k, Assign(base, pairs[..n])[k]);
          assert pairs[i] == (k, Assign(base, pairs)[k]);
        }
      } else {
        assert pairs[n] == (k, Assign(base, pairs)[k]);
      }
    }
  }

  /** With distinct keys, every pair's value is found under its key. */
  lemma AssignDistinct<K, V>(base: map<K, V>, pairs: seq<(K, V)>, p: (K, V))
    requires DistinctKeys(pairs)
    requires p in pairs
    ensures p.0 in Assign(base, pairs) && Assign(base, pairs)[p.0] == p.1
  {
    var i :| 0 <= i < |pairs| && pairs[i] == p;
    AssignLast(base, pairs, i);
  }

  /** Assigning two runs of pairs is assigning the first, then the second. */
  lemma {:induction false} AssignConcat<K, V>(base: map<K, V>, p: seq<(K, V)>, q: seq<(K, V)>)
    ensures Assign(base, p + q) == Assign(Assign(base, p), q)
    decreases |q|
  {
    if q == [] {
      assert p + q == p;
    } else {
      var n := |q| - 1;
      assert p + q == (p + q[..n]) + [q[n]];
      assert q == q[..n] + [q[n]];
      AssignStep(base, p + q[..n], q[n]);
      AssignStep(Assign(base, p), q[..n], q[n]);
      AssignConcat(base, p, q[..n]);
    }
  }

  // ----- list_stations -----

  function StationEntries(devices: seq<Device>): (pairs: seq<(ModuleId, string)>)
    ensures |pairs| == |devices|
    ensures forall i | 0 <= i < |devices| :: pairs[i] == (devices[i].id, devices[i].moduleName)
  {
    seq(|devices|, i requires 0 <= i < |devices| => (devices[i].id, devices[i].moduleName))
  }

  /** The station list: each device's id mapped to its module name. */
  function StationList(devices: seq<Device>): map<ModuleId, string> {
    Assign(map[], StationEntries(devices))
  }

  /** The station list has one key per device id and no other. */
  lemma StationListKeys(devices: seq<Device>, k: ModuleId)
    ensures k in StationList(devices) <==> exists i | 0 <= i < |devices| :: devices[i].id == k
  {
    var pairs := StationEntries(devices);
    AssignKeys(map[], pairs, k);
    if exists i | 0 <= i < |devices| :: devices[i].id == k {
      var i :| 0 <= i < |devices| && devices[i].id == k;
      assert pairs[i].0 == k;
    }
  }

  /** A device that no later device shares its id with gives that id its name. */
  lemma StationListName(devices: seq<Device>, i: nat)
    requires i < |devices|
    requires forall j | i < j < |devices| :: devices[j].id != devices[i].id
    ensures devices[i].id in StationList(devices)
    ensures StationList(devices)[devices[i].id] == devices[i].moduleName
  {
    AssignLast(map[], StationEntries(devices), i);
  }

  // ----- list_modules -----

  function SubmoduleEntries(subs: seq<Submodule>, admin: Administrative): (pairs: seq<(ModuleId, WeatherstationModule)>)
    ensures |pairs| == |subs|
    ensures forall j | 0 <= j < |subs| :: pairs[j] == (subs[j].id, SubmoduleRecord(subs[j], admin))
  {
    seq(|subs|, j requires 0 <= j < |subs| => (subs[j].id, SubmoduleRecord(subs[j], admin)))
  }

  /** A device's assignments: the station first, then its submodules in order. */
  function DeviceEntries(d: Device, admin: Administrative): seq<(ModuleId, WeatherstationModule)> {
    [(d.id, StationRecord(d, admin))] + SubmoduleEntries(d.modules, admin)
  }

  function ModuleEntries(devices: seq<Device>, admin: Administrative): seq<(ModuleId, WeatherstationModule)>
    decreases |devices|
  {
    if devices == [] then []
    else ModuleEntries(devices[..|devices| - 1], admin) + DeviceEntries(devices[|devices| - 1], admin)
  }

  /** Writing one more device's pairs is the last step of the module entries. */
  lemma ModuleEntriesStep(before: seq<(ModuleId, WeatherstationModule)>, d: Device, admin: Administrative,
                          base: map<ModuleId, WeatherstationModule>)
    ensures Assign(base, before + DeviceEntries(d, admin))
         == Assign(Assign(base, before)[d.id := StationRecord(d, admin)], SubmoduleEntries(d.modules, admin))
  {
    assert before + DeviceEntries(d, admin) == (before + [(d.id, StationRecord(d, admin))]) + SubmoduleEntries(d.modules, admin);
    AssignConcat(base, before + [(d.id, StationRecord(d, admin))], SubmoduleEntries(d.modules, admin));
    AssignStep(base, before, (d.id, StationRecord(d, admin)));
  }

  /** The module index, before the CO2 pass. */
  function ModuleIndex(data: StationData): map<ModuleId, WeatherstationModule> {
    Assign(map[], ModuleEntries(data.devices, data.administrative))
  }

  /** The ids of a station's submodules, in input order. */
  function ChildIds(d: Device): (ids: seq<ModuleId>)
    ensures |ids| == |d.modules|
    ensures forall j | 0 <= j < |d.modules| :: ids[j] == d.modules[j].id
  {
    seq(|d.modules|, j requires 0 <= j < |d.modules| => d.modules[j].id)
  }

  /** Every station id and submodule id, in the order the index writes them. */
  function ModuleIds(devices: seq<Device>): seq<ModuleId>
    decreases |devices|
  {
    if devices == [] then []
    else ModuleIds(devices[..|devices| - 1]) + [devices[|devices| - 1].id] + ChildIds(devices[|devices| - 1])
  }

  /** No two stations or submodules share an id. */
  predicate UniqueIds(devices: seq<Device>) {
    var ids := ModuleIds(devices);
    forall i, j | 0 <= i < j < |ids| :: ids[i] != ids[j]
  }

  function HierarchyEntries(devices: seq<Device>): (pairs: seq<(ModuleId, seq<ModuleId>)>)
    ensures |pairs| == |devices|
    ensures forall i | 0 <= i < |devices| :: pairs[i] == (devices[i].id, ChildIds(devices[i]))
  {
    seq(|devices|, i requires 0 <= i < |devices| => (devices[i].id, ChildIds(devices[i])))
  }

  /** One device more: its pairs follow the earlier devices' in both the module index and the hierarchy. */
  lemma IndexStep(devices: seq<Device>, i: nat, admin: Administrative, hierarchy: map<ModuleId, seq<ModuleId>>)
    requires i < |devices|
    ensures Assign(Assign(map[], ModuleEntries(devices[..i], admin))[devices[i].id := StationRecord(devices[i], admin)],
                   SubmoduleEntries(devices[i].modules, admin))
         == Assign(map[], ModuleEntries(devices[..i + 1], admin))
    ensures Assign(hierarchy, HierarchyEntries(devices[..i]))[devices[i].id := ChildIds(devices[i])]
         == Assign(hierarchy, HierarchyEntries(devices[..i + 1]))
  {
    var d := devices[i];
    assert devices[..i + 1][..i] == devices[..i];
    ModuleEntriesStep(ModuleEntries(devices[..i], admin), d, admin, map[]);
    assert HierarchyEntries(devices[..i + 1]) == HierarchyEntries(devices[..i]) + [(d.id, ChildIds(d))];
    AssignStep(hierarchy, HierarchyEntries(devices[..i]), (d.id, ChildIds(d)));
  }

  /** The CO2 pass on one record: a module with CO2 gets its reading, or -1 when the dashboard has none. */
  function WithCo2(m: WeatherstationModule): WeatherstationModule {
    if m.caps.co2 then
      m.(co2 := Some(if CO2 in m.dashboardData then m.dashboardData[CO2] else -1))
    else m
  }

  function Co2Pass(modules: map<ModuleId, WeatherstationModule>): map<ModuleId, WeatherstationModule> {
    map k | k in modules :: WithCo2(modules[k])
  }

  /** The index's keys, pair by pair, are the module ids. */
  lemma {:induction false} EntryKeys(devices: seq<Device>, admin: Administrative)
    ensures |ModuleEntries(devices, admin)| == |ModuleIds(devices)|
    ensures forall p | 0 <= p < |ModuleIds(devices)| :: ModuleEntries(devices, admin)[p].0 == ModuleIds(devices)[p]
    decreases |devices|
  {
    if devices != [] {
      var n := |devices| - 1;
      EntryKeys(devices[..n], admin);
      var d := devices[n];
      assert ModuleIds(devices) == ModuleIds(devices[..n]) + ([d.id] + ChildIds(d));
      var ids0, es0 := ModuleIds(devices[..n]), ModuleEntries(devices[..n], admin);
      var tail := DeviceEntries(d, admin);
      forall p | 0 <= p < |ModuleIds(devices)|
        ensures ModuleEntries(devices, admin)[p].0 == ModuleIds(devices)[p]
      {
        if p >= |ids0| {
          var q := p - |ids0|;
          if q > 0 {
            assert tail[q] == (d.modules[q - 1].id, SubmoduleRecord(d.modules[q - 1], admin));
          }
        }
      }
    }
  }

  /** Every pair the index writes is a station's or a submodule's. */
  lemma {:induction false} EntryOrigin(devices: seq<Device>, admin: Administrative, e: (ModuleId, WeatherstationModule))
    requires e in ModuleEntries(devices, admin)
    ensures (exists i | 0 <= i < |devices| :: e == (devices[i].id, StationRecord(devices[i], admin)))
         || (exists i, j | 0 <= i < |devices| && 0 <= j < |devices[i].modules| ::
               e == (devices[i].modules[j].id, SubmoduleRecord(devices[i].modules[j], admin)))
    decreases |devices|
  {
    var n := |devices| - 1;
    var front := devices[..n];
    if e in ModuleEntries(front, admin) {
      EntryOrigin(front, admin, e);
      if exists i | 0 <= i < |front| :: e == (front[i].id, StationRecord(front[i], admin)) {
        var i :| 0 <= i < |front| && e == (front[i].id, StationRecord(front[i], admin));
        assert devices[i] == front[i];
      } else {
        var i, j :| 0 <= i < |front| && 0 <= j < |front[i].modules|
          && e == (front[i].modules[j].id, SubmoduleRecord(front[i].modules[j], admin));
        assert devices[i] == front[i];
      }
    } else {
      var d := devices[n];
      if e != (d.id, StationRecord(d, admin)) {
        var subs := SubmoduleEntries(d.modules, admin);
        assert e in subs;
        var j :| 0 <= j < |subs| && subs[j] == e;
        assert e == (devices[n].modules[j].id, SubmoduleRecord(devices[n].modules[j], admin));
      }
    }
  }

  /** Every station's pair and every submodule's pair is written by the index. */
  lemma {:induction false} EntriesCover(devices: seq<Device>, admin: Administrative, i: nat)
    requires i < |devices|
    ensures (devices[i].id, StationRecord(devices[i], admin)) in ModuleEntries(devices, admin)
    ensures forall j | 0 <= j < |devices[i].modules| ::
      (devices[i].modules[j].id, SubmoduleRecord(devices[i].modules[j], admin)) in ModuleEntries(devices, admin)
    decreases |devices|
  {
    var n := |devices| - 1;
    var d := devices[i];
    if i < n {
      assert devices[..n][i] == d;
      EntriesCover(devices[..n], admin, i);
    } else {
      var subs := SubmoduleEntries(d.modules, admin);
      assert DeviceEntries(d, admin)[0] == (d.id, StationRecord(d, admin));
      forall j | 0 <= j < |d.modules|
        ensures (d.modules[j].id, SubmoduleRecord(d.modules[j], admin)) in ModuleEntries(devices, admin)
      {
        assert DeviceEntries(d, admin)[j + 1] == subs[j];
      }
    }
  }

  /**
   * The index has an entry for every station and every submodule and for
   * nothing else, and each entry is the record of a station or submodule
   * with that id (whose flags are membership in its data_type).
   */
  lemma ModuleIndexEntries(data: StationData, k: ModuleId)
    ensures k in ModuleIndex(data) <==>
      exists i | 0 <= i < |data.devices| :: data.devices[i].id == k || k in ChildIds(data.devices[i])
    ensures k in ModuleIndex(data) ==>
      (exists i | 0 <= i < |data.devices| ::
         ModuleIndex(data)[k] == StationRecord(data.devices[i], data.administrative) && data.devices[i].id == k)
      || (exists i, j | 0 <= i < |data.devices| && 0 <= j < |data.devices[i].modules| ::
         ModuleIndex(data)[k] == SubmoduleRecord(data.devices[i].modules[j], data.administrative)
         && data.devices[i].modules[j].id == k)
  {
    var devices, admin := data.devices, data.administrative;
    var es := ModuleEntries(devices, admin);
    AssignKeys(map[], es, k);
    if k in ModuleIndex(data) {
      AssignValueFrom(map[], es, k);
      var p :| 0 <= p < |es| && es[p] == (k, ModuleIndex(data)[k]);
      EntryOrigin(devices, admin, es[p]);
    }
    if exists i | 0 <= i < |devices| :: devices[i].id == k || k in ChildIds(devices[i]) {
      var i :| 0 <= i < |devices| && (devices[i].id == k || k in ChildIds(devices[i]));
      EntriesCover(devices, admin, i);
      if devices[i].id == k {
        var p :| 0 <= p < |es| && es[p] == (devices[i].id, StationRecord(devices[i], admin));
        assert es[p].0 == k;
      } else {
        var j :| 0 <= j < |devices[i].modules| && ChildIds(devices[i])[j] == k;
        var s := devices[i].modules[j];
        assert (s.id, SubmoduleRecord(s, admin)) in es;
        var p :| 0 <= p < |es| && es[p] == (s.id, SubmoduleRecord(s, admin));
        assert es[p].0 == k;
      }
    }
  }

  /** With unique ids, each station and submodule is indexed under its id by its own record. */
  lemma ModuleIndexUnique(data: StationData, i: nat)
    requires UniqueIds(data.devices)
    requires i < |data.devices|
    ensures var d := data.devices[i];
      && d.id in ModuleIndex(data)
      && ModuleIndex(data)[d.id] == StationRecord(d, data.administrative)
      && forall j | 0 <= j < |d.modules| ::
           d.modules[j].id in ModuleIndex(data)
           && ModuleIndex(data)[d.modules[j].id] == SubmoduleRecord(d.modules[j], data.administrative)
  {
    var devices, admin := data.devices, data.administrative;
    var es := ModuleEntries(devices, admin);
    EntryKeys(devices, admin);
    assert DistinctKeys(es);
    EntriesCover(devices, admin, i);
    var d := devices[i];
    AssignDistinct(map[], es, (d.id, StationRecord(d, admin)));
    forall j | 0 <= j < |d.modules|
      ensures d.modules[j].id in ModuleIndex(data)
           && ModuleIndex(data)[d.modules[j].id] == SubmoduleRecord(d.modules[j], admin)
    {
      AssignDistinct(map[], es, (d.modules[j].id, SubmoduleRecord(d.modules[j], admin)));
    }
  }

  /**
   * The hierarchy after an index pass over `devices`, starting from `base`:
   * the base's keys and the station ids; a station that no later station
   * shares its id with maps to its submodule ids in input order; a key no
   * station has keeps its base value.
   */
  lemma HierarchyEntriesSpec(base: map<ModuleId, seq<ModuleId>>, devices: seq<Device>, k: ModuleId)
    ensures k in Assign(base, HierarchyEntries(devices)) <==>
      k in base || exists i | 0 <= i < |devices| :: devices[i].id == k
    ensures forall i | 0 <= i < |devices| && devices[i].id == k && (forall j | i < j < |devices| :: devices[j].id != k) ::
      Assign(base, HierarchyEntries(devices))[k] == ChildIds(devices[i])
    ensures k in base && (forall i | 0 <= i < |devices| :: devices[i].id != k) ==>
      Assign(base, HierarchyEntries(devices))[k] == base[k]
  {
    var pairs := HierarchyEntries(devices);
    AssignKeys(base, pairs, k);
    if exists i | 0 <= i < |devices| :: devices[i].id == k {
      var i :| 0 <= i < |devices| && devices[i].id == k;
      assert pairs[i].0 == k;
    }
    forall i | 0 <= i < |devices| && devices[i].id == k && (forall j | i < j < |devices| :: devices[j].id != k)
      ensures Assign(base, pairs)[k] == ChildIds(devices[i])
    {
      AssignLast(base, pairs, i);
    }
    if k in base && (forall i | 0 <= i < |devices| :: devices[i].id != k) {
      AssignKeeps(base, pairs, k);
    }
  }

  /**
   * After the CO2 pass every module keeps its keys and its record, except
   * that a module with CO2 carries its reading, or -1 when its dashboard has
   * none, and a module without CO2 carries no reading.
   */
  lemma Co2Default(data: StationData, k: ModuleId)
    requires k in ModuleIndex(data)
    ensures var m := Co2Pass(ModuleIndex(data));
      && k in m
      && m[k].(co2 := None) == ModuleIndex(data)[k]
      && (m[k].caps.co2 ==> m[k].co2 == Some(if CO2 in m[k].dashboardData then m[k].dashboardData[CO2] else -1))
      && (!m[k].caps.co2 ==> m[k].co2 == None)
  {
    ModuleIndexEntries(data, k);
  }
}
