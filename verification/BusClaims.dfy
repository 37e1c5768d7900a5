/** Who polls and who listens on a bus, and what saving a device would break. */
module BusClaims {
  import opened Prelude

  /** A source of a device: its bus, if it is on one; whether it only listens;
      and whether a standby gateway would run it as a tap. */
  datatype Source = Source(enabled: bool, bus: Option<Name>, listens: bool, tapped: bool)

  datatype Device = Device(id: Name, enabled: bool, sources: seq<Source>)

  type Config = seq<Device>

  datatype Claim = Claim(index: nat, bus: Name, listens: bool)

  /** The claims of a device's enabled sources that are on a bus. */
  function Claims(sources: seq<Source>, standby: bool): seq<Claim> {
    if sources == [] then []
    else
      var n := |sources| - 1;
      var s := sources[n];
      Claims(sources[..n], standby) +
      if s.enabled && s.bus.Some? then [Claim(n, s.bus.value, s.listens || (standby && s.tapped))] else []
  }

  /** Exactly the enabled sources on a bus claim it; on a standby gateway a
      tapped one counts as listening. */
  lemma {:induction false} ClaimsAre(sources: seq<Source>, standby: bool, c: Claim)
    ensures c in Claims(sources, standby) <==>
            && c.index < |sources| && sources[c.index].enabled && sources[c.index].bus == Some(c.bus)
            && c.listens == (sources[c.index].listens || (standby && sources[c.index].tapped))
  {
    if sources != [] {
      ClaimsAre(sources[..|sources| - 1], standby, c);
    }
  }

  predicate Holds(d: Device, bus: Name, listening: bool, standby: bool) {
    exists i :: 0 <= i < |Claims(d.sources, standby)| &&
                Claims(d.sources, standby)[i].bus == bus && Claims(d.sources, standby)[i].listens == listening
  }

  /** The enabled devices, but for those excluded, that poll or listen on a bus,
      in the order of the configuration. */
  function HoldersOf(config: Config, bus: Name, exclude: set<Name>, listening: bool, standby: bool): seq<Name> {
    if config == [] then []
    else
      var n := |config| - 1;
      var d := config[n];
      var front := HoldersOf(config[..n], bus, exclude, listening, standby);
      if d.enabled && d.id !in exclude && d.id !in front && Holds(d, bus, listening, standby)
      then front + [d.id] else front
  }

  method AnyClaim(claims: seq<Claim>, bus: Name, listening: bool) returns (any: bool)
    ensures any <==> exists i :: 0 <= i < |claims| && claims[i].bus == bus && claims[i].listens == listening
  {
    any := false;
    for i := 0 to |claims|
      invariant !any && forall j :: 0 <= j < i ==> !(claims[j].bus == bus && claims[j].listens == listening)
    {
      if claims[i].bus == bus && claims[i].listens == listening {
        return true;
      }
    }
  }

  method Holders(config: Config, bus: Name, exclude: set<Name>, listening: bool, standby: bool)
    returns (out: seq<Name>)
    ensures out == HoldersOf(config, bus, exclude, listening, standby)
  {
    out := [];
    for i := 0 to |config|
      invariant out == HoldersOf(config[..i], bus, exclude, listening, standby)
    {
      var d := config[i];
      assert config[..i + 1][..i] == config[..i];
      var any := AnyClaim(Claims(d.sources, standby), bus, listening);
      if d.enabled && d.id !in exclude && d.id !in out && any {
        out := out + [d.id];
      }
    }
    assert config[..|config|] == config;
  }

  // ---- saving ----

  /** A claim of a device to be saved, and who stands against it. */
  datatype Conflict = Conflict(device: Name, index: nat, ids: seq<Name>)

  function ClaimConflicts(config: Config, id: Name, claims: seq<Claim>, exclude: set<Name>): seq<Conflict> {
    if claims == [] then []
    else
      var n := |claims| - 1;
      var ids := HoldersOf(config, claims[n].bus, exclude, !claims[n].listens, false);
      ClaimConflicts(config, id, claims[..n], exclude) + if ids != [] then [Conflict(id, claims[n].index, ids)] else []
  }

  function ConflictsOf(config: Config, built: seq<Device>, exclude: set<Name>): seq<Conflict> {
    if built == [] then []
    else
      var n := |built| - 1;
      ConflictsOf(config, built[..n], exclude) +
      ClaimConflicts(config, built[n].id, Claims(built[n].sources, false), exclude)
  }

  method SaveConflicts(config: Config, built: seq<Device>, exclude: set<Name>) returns (out: seq<Conflict>)
    ensures out == ConflictsOf(config, built, exclude)
  {
    out := [];
    for i := 0 to |built|
      invariant out == ConflictsOf(config, built[..i], exclude)
    {
      assert built[..i + 1][..i] == built[..i];
      var d := built[i];
      var claims := Claims(d.sources, false);
      ghost var before := out;
      for k := 0 to |claims|
        invariant out == before + ClaimConflicts(config, d.id, claims[..k], exclude)
      {
        assert claims[..k + 1][..k] == claims[..k];
        var ids;
        if claims[k].listens {
          ids := Holders(config, claims[k].bus, exclude, false, false);
        } else {
          ids := Holders(config, claims[k].bus, exclude, true, false);
        }
        if ids != [] {
          out := out + [Conflict(d.id, claims[k].index, ids)];
        }
      }
      assert claims[..|claims|] == claims;
    }
    assert built[..|built|] == built;
  }

  // ---- no bus is both polled and listened to ----

  /** One of the two polls a bus the other listens to. */
  predicate Clash(d: Device, e: Device) {
    exists i, j :: 0 <= i < |Claims(d.sources, false)| && 0 <= j < |Claims(e.sources, false)| &&
      Claims(d.sources, false)[i].bus == Claims(e.sources, false)[j].bus &&
      Claims(d.sources, false)[i].listens != Claims(e.sources, false)[j].listens
  }

  /** Between different enabled devices. */
  predicate CleanPair(d: Device, e: Device) {
    d.id != e.id && d.enabled && e.enabled ==> !Clash(d, e)
  }

  predicate Clean(config: Config) {
    forall i, j :: 0 <= i < |config| && 0 <= j < |config| ==> CleanPair(config[i], config[j])
  }

  lemma {:induction false} HoldersAre(config: Config, bus: Name, exclude: set<Name>, listening: bool, standby: bool, id: Name)
    ensures id in HoldersOf(config, bus, exclude, listening, standby) <==>
            exists i :: 0 <= i < |config| && config[i].id == id && config[i].enabled && id !in exclude &&
                        Holds(config[i], bus, listening, standby)
    decreases |config|
  {
    if config != [] {
      var n := |config| - 1;
      HoldersAre(config[..n], bus, exclude, listening, standby, id);
      assert forall i :: 0 <= i < n ==> config[..n][i] == config[i];
    }
  }

  /** A device polls or listens on a bus by one of its enabled sources. */
  ghost predicate On(d: Device, bus: Name, listening: bool, standby: bool) {
    exists i :: 0 <= i < |d.sources| && d.sources[i].enabled && d.sources[i].bus == Some(bus) &&
                listening == (d.sources[i].listens || (standby && d.sources[i].tapped))
  }

  lemma HoldsIs(d: Device, bus: Name, listening: bool, standby: bool)
    ensures Holds(d, bus, listening, standby) <==> On(d, bus, listening, standby)
  {
    var claims := Claims(d.sources, standby);
    forall c ensures c in claims <==>
      c.index < |d.sources| && d.sources[c.index].enabled && d.sources[c.index].bus == Some(c.bus)
      && c.listens == (d.sources[c.index].listens || (standby && d.sources[c.index].tapped))
    {
      ClaimsAre(d.sources, standby, c);
    }
    if Holds(d, bus, listening, standby) {
      var i :| 0 <= i < |claims| && claims[i].bus == bus && claims[i].listens == listening;
      assert claims[i] in claims;
    }
    if On(d, bus, listening, standby) {
      var i :| 0 <= i < |d.sources| && d.sources[i].enabled && d.sources[i].bus == Some(bus) &&
               listening == (d.sources[i].listens || (standby && d.sources[i].tapped));
      assert Claim(i, bus, listening) in claims;
    }
  }

  /** Two devices clash when one has an enabled source that polls a bus and the other one
      that listens on it. */
  lemma ClashIs(d: Device, e: Device)
    ensures Clash(d, e) <==>
              exists bus, listening :: On(d, bus, listening, false) && On(e, bus, !listening, false)
  {
    forall x: Device, bus, listening ensures Holds(x, bus, listening, false) <==> On(x, bus, listening, false) {
      HoldsIs(x, bus, listening, false);
    }
    var mine, theirs := Claims(d.sources, false), Claims(e.sources, false);
    if Clash(d, e) {
      var i, j :| 0 <= i < |mine| && 0 <= j < |theirs| && mine[i].bus == theirs[j].bus && mine[i].listens != theirs[j].listens;
      assert Holds(d, mine[i].bus, mine[i].listens, false) && Holds(e, mine[i].bus, !mine[i].listens, false);
    }
    if bus, listening :| On(d, bus, listening, false) && On(e, bus, !listening, false) {
      assert Holds(d, bus, listening, false) && Holds(e, bus, !listening, false);
    }
  }

  /** The device is enabled, not excluded, and on the bus. */
  ghost predicate Counts(d: Device, bus: Name, exclude: set<Name>, listening: bool, standby: bool) {
    d.enabled && d.id !in exclude && On(d, bus, listening, standby)
  }

  /** The holders are listed once each, in the order of the configuration: one before
      another has a device that counts before any that does of the other's id. */
  lemma {:induction false} HoldersInOrder(config: Config, bus: Name, exclude: set<Name>, listening: bool, standby: bool, p: nat, q: nat)
    requires p < q < |HoldersOf(config, bus, exclude, listening, standby)|
    ensures
      var ids := HoldersOf(config, bus, exclude, listening, standby);
      exists i :: 0 <= i < |config| && config[i].id == ids[p] && Counts(config[i], bus, exclude, listening, standby) &&
                  forall j :: 0 <= j <= i && Counts(config[j], bus, exclude, listening, standby) ==> config[j].id != ids[q]
    decreases |config|
  {
    var n := |config| - 1;
    var ids, front := HoldersOf(config, bus, exclude, listening, standby), HoldersOf(config[..n], bus, exclude, listening, standby);
    if q < |front| {
      HoldersInOrder(config[..n], bus, exclude, listening, standby, p, q);
      var i :| 0 <= i < n && config[..n][i].id == front[p] && Counts(config[..n][i], bus, exclude, listening, standby) &&
               forall j :: 0 <= j <= i && Counts(config[..n][j], bus, exclude, listening, standby) ==> config[..n][j].id != front[q];
      FirstHolder(config, config[..n], bus, exclude, listening, standby, i, ids[p], ids[q]);
    } else {
      HoldersAre(config[..n], bus, exclude, listening, standby, front[p]);
      HoldersAre(config[..n], bus, exclude, listening, standby, ids[q]);
      var i :| 0 <= i < n && config[..n][i].id == front[p] && config[..n][i].enabled && front[p] !in exclude &&
               Holds(config[..n][i], bus, listening, standby);
      HoldsIs(config[i], bus, listening, standby);
      forall j | 0 <= j <= i && Counts(config[..n][j], bus, exclude, listening, standby) ensures config[..n][j].id != ids[q] {
        HoldsIs(config[j], bus, listening, standby);
      }
      FirstHolder(config, config[..n], bus, exclude, listening, standby, i, ids[p], ids[q]);
    }
  }

  lemma FirstHolder(config: Config, front: Config, bus: Name, exclude: set<Name>, listening: bool, standby: bool,
                    i: nat, one: Name, other: Name)
    requires i < |front| && front <= config && front[i].id == one && Counts(front[i], bus, exclude, listening, standby)
    requires forall j :: 0 <= j <= i && Counts(front[j], bus, exclude, listening, standby) ==> front[j].id != other
    ensures config[i].id == one && Counts(config[i], bus, exclude, listening, standby)
    ensures forall j :: 0 <= j <= i && Counts(config[j], bus, exclude, listening, standby) ==> config[j].id != other
  {
    forall j | 0 <= j <= i && Counts(config[j], bus, exclude, listening, standby) ensures config[j].id != other {
      assert front[j] == config[j];
    }
  }

  lemma {:induction false} ClaimConflictsAre(config: Config, id: Name, claims: seq<Claim>, exclude: set<Name>, c: Conflict)
    ensures c in ClaimConflicts(config, id, claims, exclude) <==>
              exists k :: 0 <= k < |claims| && c.device == id && c.index == claims[k].index && c.ids != [] &&
                          c.ids == HoldersOf(config, claims[k].bus, exclude, !claims[k].listens, false)
    decreases |claims|
  {
    if claims != [] {
      var n := |claims| - 1;
      ClaimConflictsAre(config, id, claims[..n], exclude, c);
      assert forall k :: 0 <= k < n ==> claims[..n][k] == claims[k];
    }
  }

  /** What is listed: an enabled source on a bus of a device to be saved, with those who
      do on that bus what it does not, when there are any. */
  predicate Opposes(config: Config, d: Device, exclude: set<Name>, c: Conflict) {
    && c.device == d.id && c.index < |d.sources| && d.sources[c.index].enabled && d.sources[c.index].bus.Some?
    && c.ids != [] && c.ids == HoldersOf(config, d.sources[c.index].bus.value, exclude, !d.sources[c.index].listens, false)
  }

  lemma DeviceConflictsAre(config: Config, d: Device, exclude: set<Name>, c: Conflict)
    ensures c in ClaimConflicts(config, d.id, Claims(d.sources, false), exclude) <==> Opposes(config, d, exclude, c)
  {
    var claims := Claims(d.sources, false);
    ClaimConflictsAre(config, d.id, claims, exclude, c);
    if c in ClaimConflicts(config, d.id, claims, exclude) {
      var k :| 0 <= k < |claims| && c.device == d.id && c.index == claims[k].index && c.ids != [] &&
               c.ids == HoldersOf(config, claims[k].bus, exclude, !claims[k].listens, false);
      ClaimsAre(d.sources, false, claims[k]);
      assert claims[k] in claims;
    }
    if Opposes(config, d, exclude, c) {
      var claim := Claim(c.index, d.sources[c.index].bus.value, d.sources[c.index].listens);
      ClaimsAre(d.sources, false, claim);
      var k :| 0 <= k < |claims| && claims[k] == claim;
    }
  }

  predicate SomeOpposes(config: Config, built: seq<Device>, exclude: set<Name>, c: Conflict) {
    exists k :: 0 <= k < |built| && Opposes(config, built[k], exclude, c)
  }

  lemma SomeOpposesNext(config: Config, front: seq<Device>, d: Device, exclude: set<Name>, c: Conflict)
    ensures SomeOpposes(config, front + [d], exclude, c) <==> SomeOpposes(config, front, exclude, c) || Opposes(config, d, exclude, c)
  {
    var all := front + [d];
    assert all[|front|] == d;
    assert forall k :: 0 <= k < |front| ==> all[k] == front[k];
  }

  lemma {:induction false} ConflictsAre(config: Config, built: seq<Device>, exclude: set<Name>, c: Conflict)
    ensures c in ConflictsOf(config, built, exclude) <==> SomeOpposes(config, built, exclude, c)
    decreases |built|
  {
    if built != [] {
      var n := |built| - 1;
      ConflictsAre(config, built[..n], exclude, c);
      DeviceConflictsAre(config, built[n], exclude, c);
      SomeOpposesNext(config, built[..n], built[n], exclude, c);
      assert built[..n] + [built[n]] == built;
    }
  }

  /** Whether a device stands against some other enabled one of a configuration. */
  predicate ClashesWith(config: Config, d: Device, exclude: set<Name>) {
    exists i :: 0 <= i < |config| && config[i].enabled && config[i].id !in exclude && Clash(config[i], d)
  }

  lemma ClaimMeets(config: Config, d: Device, exclude: set<Name>, k: nat)
    requires k < |Claims(d.sources, false)|
    requires HoldersOf(config, Claims(d.sources, false)[k].bus, exclude, !Claims(d.sources, false)[k].listens, false) != []
    ensures ClashesWith(config, d, exclude)
  {
    var c := Claims(d.sources, false)[k];
    var ids := HoldersOf(config, c.bus, exclude, !c.listens, false);
    HoldersAre(config, c.bus, exclude, !c.listens, false, ids[0]);
    var i :| 0 <= i < |config| && config[i].id == ids[0] && config[i].enabled && ids[0] !in exclude &&
             Holds(config[i], c.bus, !c.listens, false);
    assert Clash(config[i], d);
  }

  lemma {:induction false} SilentClaims(config: Config, id: Name, claims: seq<Claim>, exclude: set<Name>)
    ensures ClaimConflicts(config, id, claims, exclude) == [] <==>
            forall k :: 0 <= k < |claims| ==> HoldersOf(config, claims[k].bus, exclude, !claims[k].listens, false) == []
    decreases |claims|
  {
    if claims != [] {
      var n := |claims| - 1;
      SilentClaims(config, id, claims[..n], exclude);
      assert forall k :: 0 <= k < n ==> claims[..n][k] == claims[k];
    }
  }

  lemma NoConflictMeansNoClash(config: Config, d: Device, exclude: set<Name>)
    ensures ClaimConflicts(config, d.id, Claims(d.sources, false), exclude) == [] <==> !ClashesWith(config, d, exclude)
  {
    var claims := Claims(d.sources, false);
    SilentClaims(config, d.id, claims, exclude);
    if !ClashesWith(config, d, exclude) {
      forall k | 0 <= k < |claims| ensures HoldersOf(config, claims[k].bus, exclude, !claims[k].listens, false) == [] {
        if HoldersOf(config, claims[k].bus, exclude, !claims[k].listens, false) != [] {
          ClaimMeets(config, d, exclude, k);
        }
      }
    } else {
      var i :| 0 <= i < |config| && config[i].enabled && config[i].id !in exclude && Clash(config[i], d);
      var a, k :| 0 <= a < |Claims(config[i].sources, false)| && 0 <= k < |claims| &&
                  Claims(config[i].sources, false)[a].bus == claims[k].bus &&
                  Claims(config[i].sources, false)[a].listens != claims[k].listens;
      assert Holds(config[i], claims[k].bus, !claims[k].listens, false);
      HoldersAre(config, claims[k].bus, exclude, !claims[k].listens, false, config[i].id);
    }
  }

  predicate AllApart(config: Config, built: seq<Device>, exclude: set<Name>) {
    forall k :: 0 <= k < |built| ==> !ClashesWith(config, built[k], exclude)
  }

  lemma AllApartNext(config: Config, front: seq<Device>, d: Device, exclude: set<Name>)
    ensures AllApart(config, front + [d], exclude) <==> AllApart(config, front, exclude) && !ClashesWith(config, d, exclude)
  {
    var all := front + [d];
    assert all[|front|] == d;
    if AllApart(config, all, exclude) {
      forall k | 0 <= k < |front| ensures !ClashesWith(config, front[k], exclude) {
        assert all[k] == front[k];
      }
    }
  }

  lemma ConflictsNext(config: Config, built: seq<Device>, exclude: set<Name>)
    requires built != []
    ensures built[..|built| - 1] + [built[|built| - 1]] == built
    ensures var d := built[|built| - 1];
            ConflictsOf(config, built, exclude) == [] <==>
            ConflictsOf(config, built[..|built| - 1], exclude) == [] &&
            ClaimConflicts(config, d.id, Claims(d.sources, false), exclude) == []
  {
  }

  lemma {:induction false} NoConflictsMeanNoClashes(config: Config, built: seq<Device>, exclude: set<Name>)
    ensures ConflictsOf(config, built, exclude) == [] <==> AllApart(config, built, exclude)
    decreases |built|
  {
    if built != [] {
      var n := |built| - 1;
      NoConflictsMeanNoClashes(config, built[..n], exclude);
      NoConflictMeansNoClash(config, built[n], exclude);
      AllApartNext(config, built[..n], built[n], exclude);
      ConflictsNext(config, built, exclude);
    }
  }

  function Ids(devices: seq<Device>): set<Name> {
    set i | 0 <= i < |devices| :: devices[i].id
  }

  /** The devices that stay when those of some ids are replaced. */
  function Others(config: Config, ids: set<Name>): Config {
    if config == [] then []
    else Others(config[..|config| - 1], ids) + if config[|config| - 1].id in ids then [] else [config[|config| - 1]]
  }

  function Saved(config: Config, built: seq<Device>): Config {
    Others(config, Ids(built)) + built
  }

  lemma {:induction false} OthersAre(config: Config, ids: set<Name>)
    ensures forall d :: d in Others(config, ids) <==> d in config && d.id !in ids
    decreases |config|
  {
    if config != [] {
      var n := |config| - 1;
      OthersAre(config[..n], ids);
      assert config == config[..n] + [config[n]];
    }
  }

  lemma CleanMembers(config: Config)
    ensures Clean(config) <==> forall d, e :: d in config && e in config ==> CleanPair(d, e)
  {
    if Clean(config) {
      forall d, e | d in config && e in config ensures CleanPair(d, e) {
        var i :| 0 <= i < |config| && config[i] == d;
        var j :| 0 <= j < |config| && config[j] == e;
        assert CleanPair(config[i], config[j]);
      }
    }
  }

  lemma ClashBothWays(d: Device, e: Device)
    ensures Clash(d, e) <==> Clash(e, d)
  {
    if Clash(d, e) {
      var i, j :| 0 <= i < |Claims(d.sources, false)| && 0 <= j < |Claims(e.sources, false)| &&
        Claims(d.sources, false)[i].bus == Claims(e.sources, false)[j].bus &&
        Claims(d.sources, false)[i].listens != Claims(e.sources, false)[j].listens;
    }
    if Clash(e, d) {
      var i, j :| 0 <= i < |Claims(e.sources, false)| && 0 <= j < |Claims(d.sources, false)| &&
        Claims(e.sources, false)[i].bus == Claims(d.sources, false)[j].bus &&
        Claims(e.sources, false)[i].listens != Claims(d.sources, false)[j].listens;
    }
  }

  /** Saving enabled devices into a clean configuration leaves it clean exactly
      when the check has nothing against it and the devices saved together do
      not clash among themselves, which the check does not look at. */
  lemma SaveIsCleanWhen(config: Config, built: seq<Device>)
    requires Clean(config) && forall k :: 0 <= k < |built| ==> built[k].enabled
    ensures Clean(Saved(config, built)) <==> ConflictsOf(config, built, Ids(built)) == [] && Clean(built)
  {
    var ids := Ids(built);
    OthersAre(config, ids);
    CleanMembers(config);
    CleanMembers(built);
    CleanMembers(Saved(config, built));
    NoConflictsMeanNoClashes(config, built, ids);
    if ConflictsOf(config, built, ids) == [] && Clean(built) {
      forall d, e | d in Saved(config, built) && e in Saved(config, built) ensures CleanPair(d, e) {
        SavedPair(config, built, d, e);
      }
    }
    if Clean(Saved(config, built)) {
      forall k | 0 <= k < |built| ensures !ClashesWith(config, built[k], ids) {
        forall i | 0 <= i < |config| && config[i].enabled && config[i].id !in ids ensures !Clash(config[i], built[k]) {
          assert built[k] in Saved(config, built) && config[i] in Saved(config, built);
          assert built[k].id in ids;
          assert CleanPair(config[i], built[k]);
        }
      }
    }
  }

  lemma SavedPair(config: Config, built: seq<Device>, d: Device, e: Device)
    requires Clean(config) && Clean(built)
    requires AllApart(config, built, Ids(built))
    requires d in Saved(config, built) && e in Saved(config, built)
    ensures CleanPair(d, e)
  {
    var ids := Ids(built);
    OthersAre(config, ids);
    CleanMembers(config);
    CleanMembers(built);
    ClashBothWays(d, e);
    if d in Others(config, ids) && e in built {
      StandsApart(config, built, d, e);
    } else if e in Others(config, ids) && d in built {
      StandsApart(config, built, e, d);
    }
  }

  lemma StandsApart(config: Config, built: seq<Device>, d: Device, e: Device)
    requires AllApart(config, built, Ids(built))
    requires d in config && d.id !in Ids(built) && e in built
    ensures d.enabled ==> !Clash(d, e)
  {
    var i :| 0 <= i < |config| && config[i] == d;
    var k :| 0 <= k < |built| && built[k] == e;
    assert !ClashesWith(config, built[k], Ids(built));
  }

  // ---- every reachable configuration ----

  datatype Change = Save(device: Device) | Remove(id: Name) | Disable(id: Name)

  function Disabled(config: Config, id: Name): Config {
    if config == [] then []
    else
      var d := config[|config| - 1];
      Disabled(config[..|config| - 1], id) + [if d.id == id then d.(enabled := false) else d]
  }

  function Changed(config: Config, c: Change): Config {
    match c
    case Save(d) => Saved(config, [d])
    case Remove(id) => Others(config, {id})
    case Disable(id) => Disabled(config, id)
  }

  /** A save goes through when the check has nothing against it. */
  predicate Passes(config: Config, c: Change) {
    c.Save? ==> ConflictsOf(config, [c.device], {c.device.id}) == []
  }

  function Reach(config: Config, changes: seq<Change>): Config {
    if changes == [] then config
    else Changed(Reach(config, changes[..|changes| - 1]), changes[|changes| - 1])
  }

  predicate AllPass(config: Config, changes: seq<Change>) {
    forall k :: 0 <= k < |changes| ==> Passes(Reach(config, changes[..k]), changes[k])
  }

  lemma {:induction false} DisabledAre(config: Config, id: Name)
    ensures forall d :: d in Disabled(config, id) && d.enabled ==> d in config
    decreases |config|
  {
    if config != [] {
      var n := |config| - 1;
      DisabledAre(config[..n], id);
      assert config == config[..n] + [config[n]];
    }
  }

  lemma OneSaveStaysClean(config: Config, d: Device)
    requires Clean(config) && ConflictsOf(config, [d], {d.id}) == []
    ensures Clean(Saved(config, [d]))
  {
    assert Ids([d]) == {d.id} by {
      assert [d][0].id in Ids([d]);
    }
    NoConflictsMeanNoClashes(config, [d], {d.id});
    CleanMembers(Saved(config, [d]));
    forall a, b | a in Saved(config, [d]) && b in Saved(config, [d]) ensures CleanPair(a, b) {
      SavedPair(config, [d], a, b);
    }
  }

  lemma ChangeStaysClean(config: Config, c: Change)
    requires Clean(config) && Passes(config, c)
    ensures Clean(Changed(config, c))
  {
    CleanMembers(config);
    CleanMembers(Changed(config, c));
    match c
    case Save(d) => OneSaveStaysClean(config, d);
    case Remove(id) => OthersAre(config, {id});
    case Disable(id) => DisabledAre(config, id);
  }

  /** When every change is a one-device save the check lets through, a removal
      or a disabling, no bus is ever polled by one enabled device and listened
      to by another. */
  lemma {:induction false} NoBusIsBoth(config: Config, changes: seq<Change>)
    requires Clean(config) && AllPass(config, changes)
    ensures Clean(Reach(config, changes))
    decreases |changes|
  {
    if changes != [] {
      var n := |changes| - 1;
      forall k | 0 <= k < n ensures Passes(Reach(config, changes[..n][..k]), changes[..n][k]) {
        assert changes[..n][..k] == changes[..k];
      }
      NoBusIsBoth(config, changes[..n]);
      ChangeStaysClean(Reach(config, changes[..n]), changes[n]);
    }
  }

  const POLLING := Device(Name("a"), true, [Source(true, Some(Name("tty0")), false, false)])
  const LISTENING := Device(Name("b"), true, [Source(true, Some(Name("tty0")), true, false)])

  lemma OneClaim(s: Source)
    requires s.enabled && s.bus.Some?
    ensures Claims([s], false) == [Claim(0, s.bus.value, s.listens)]
  {
    assert [s][..0] == [];
  }

  lemma OpposedSources(d: Device, e: Device, s: Source, t: Source)
    requires d.sources == [s] && e.sources == [t] && s.enabled && t.enabled
    requires s.bus.Some? && s.bus == t.bus && s.listens != t.listens
    ensures Clash(d, e)
  {
    OneClaim(s);
    OneClaim(t);
    assert Claims(d.sources, false)[0].bus == Claims(e.sources, false)[0].bus;
    assert Claims(d.sources, false)[0].listens != Claims(e.sources, false)[0].listens;
  }

  lemma EmptyPasses(built: seq<Device>)
    ensures ConflictsOf([], built, Ids(built)) == []
  {
    NoConflictsMeanNoClashes([], built, Ids(built));
  }

  /** Two devices saved together may clash: the check passes them. */
  lemma SavedTogetherMayClash()
    ensures ConflictsOf([], [POLLING, LISTENING], Ids([POLLING, LISTENING])) == []
    ensures !Clean(Saved([], [POLLING, LISTENING]))
  {
    OpposedSources(POLLING, LISTENING, POLLING.sources[0], LISTENING.sources[0]);
    assert POLLING.id.text != LISTENING.id.text;
    TogetherClash(POLLING, LISTENING);
  }

  lemma TogetherClash(d: Device, e: Device)
    requires d.enabled && e.enabled && d.id != e.id && Clash(d, e)
    ensures ConflictsOf([], [d, e], Ids([d, e])) == [] && !Clean(Saved([], [d, e]))
  {
    var both := [d, e];
    EmptyPasses(both);
    assert !CleanPair(both[0], both[1]);
    SaveIsCleanWhen([], both);
  }
}
