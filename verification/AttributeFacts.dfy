/** What is in an attribute document, place by place: what each change does to one
    place and leaves alone elsewhere, and what completing keeps. */
module AttributeFacts {
  import opened Prelude
  import opened AttributeDoc

  /** One category of the site, or of a target at a level. */
  datatype Place = OfSite(category: Name) | Of(level: Level, target: Name, category: Name)

  function Plainly(name: Name): Key {
    Key(name, true)
  }

  /** The mapping under a key, empty when there is none. */
  function Under(d: Dict, name: string): Dict {
    EntriesOf(Get(d, Plainly(Name(name))))
  }

  function LevelName(level: Level): string {
    if level.Installation? then "installation" else "device"
  }

  function TargetNode(d: Dict, level: Level, target: Name): Dict {
    EntriesOf(Get(Under(d, LevelName(level)), Plainly(target)))
  }

  /** What the document holds at a place. */
  function Held(d: Dict, p: Place): Option<Val> {
    match p
    case OfSite(c) => Get(Under(d, "site"), Plainly(c))
    case Of(level, t, c) => Get(TargetNode(d, level, t), Plainly(c))
  }

  function Setting(d: Dict, name: string): Option<Val> {
    Get(Under(d, "settings"), Plainly(Name(name)))
  }

  // ---- the parts of a document apart from one another ----

  lemma KeysAre()
    ensures SITE == Plainly(Name("site")) && SETTINGS == Plainly(Name("settings")) && SCHEMA == Plainly(Name("schema"))
    ensures INSTALLATION == Plainly(Name("installation")) && DEVICE == Plainly(Name("device"))
    ensures LOCATION_PUBLISH == Plainly(Name("location_publish")) && PUBLISH_SERIALS == Plainly(Name("publish_serials"))
  {
  }

  lemma LevelsAre(d: Dict, level: Level, target: Name)
    ensures Under(d, LevelName(level)) == LevelOf(d, level) && TargetNode(d, level, target) == TargetOf(d, level, target)
  {
    KeysAre();
  }

  /** Putting something under one of the five keys leaves what is under the others. */
  lemma PutUnder(d: Dict, k: Key, m: Dict, name: string)
    ensures Under(Put(d, k, Mapping(m)), name) == if k == Plainly(Name(name)) then m else Under(d, name)
  {
    GetPut(d, k, Mapping(m), Plainly(Name(name)));
  }

  lemma SiteHolds(d: Dict, site: Dict, p: Place)
    ensures Held(Put(d, SITE, Mapping(site)), p) == if p.OfSite? then Get(site, Plainly(p.category)) else Held(d, p)
  {
    KeysAre();
    KeysDiffer();
    PutUnder(d, SITE, site, if p.OfSite? then "site" else LevelName(p.level));
  }

  lemma LevelHolds(d: Dict, level: Level, held: Dict, p: Place)
    ensures Held(SetLevel(d, level, held), p) ==
            if p.Of? && p.level == level then Get(EntriesOf(Get(held, Plainly(p.target))), Plainly(p.category)) else Held(d, p)
  {
    KeysAre();
    KeysDiffer();
    PutUnder(d, KeyOf(level), held, if p.OfSite? then "site" else LevelName(p.level));
  }

  lemma TargetHolds(d: Dict, level: Level, target: Name, node: Dict, p: Place)
    ensures Held(SetTarget(d, level, target, node), p) ==
            if p.Of? && p.level == level && p.target == target then Get(node, Plainly(p.category)) else Held(d, p)
  {
    LevelHolds(d, level, Put(LevelOf(d, level), Plainly(target), Mapping(node)), p);
    if p.Of? {
      GetPut(LevelOf(d, level), Plainly(target), Mapping(node), Plainly(p.target));
      LevelsAre(d, level, p.target);
    }
  }

  lemma GoneHolds(d: Dict, level: Level, target: Name, p: Place)
    ensures Held(SetLevel(d, level, Without(LevelOf(d, level), Plainly(target))), p) ==
            if p.Of? && p.level == level && p.target == target then None else Held(d, p)
  {
    LevelHolds(d, level, Without(LevelOf(d, level), Plainly(target)), p);
    if p.Of? {
      GetWithout(LevelOf(d, level), Plainly(target), Plainly(p.target));
      LevelsAre(d, level, p.target);
    }
  }

  lemma SettingsHold(d: Dict, settings: Dict, p: Place, name: string)
    ensures Held(Put(d, SETTINGS, Mapping(settings)), p) == Held(d, p)
    ensures Setting(Put(d, SETTINGS, Mapping(settings)), name) == Get(settings, Plainly(Name(name)))
  {
    KeysAre();
    KeysDiffer();
    PutUnder(d, SETTINGS, settings, if p.OfSite? then "site" else LevelName(p.level));
    PutUnder(d, SETTINGS, settings, "settings");
  }

  lemma SettingsStay(d: Dict, k: Key, m: Dict, name: string)
    requires k == SITE || k == INSTALLATION || k == DEVICE
    ensures Setting(Put(d, k, Mapping(m)), name) == Setting(d, name)
  {
    KeysAre();
    KeysDiffer();
    PutUnder(d, k, m, "settings");
  }

  // ---- several at once ----

  /** The last of the values given for a name; None when there is none. */
  function LastFor(values: seq<(Name, Val)>, name: Name): Option<Val> {
    if values == [] then None
    else if values[|values| - 1].0 == name then Some(values[|values| - 1].1)
    else LastFor(values[..|values| - 1], name)
  }

  lemma {:induction false} LastForIs(values: seq<(Name, Val)>, name: Name, i: nat)
    ensures (i < |values| && values[i].0 == name && forall j :: i < j < |values| ==> values[j].0 != name) ==>
              LastFor(values, name) == Some(values[i].1)
    ensures (forall j :: 0 <= j < |values| ==> values[j].0 != name) ==> LastFor(values, name) == None
  {
    if values != [] && values[|values| - 1].0 != name {
      LastForIs(values[..|values| - 1], name, i);
    }
  }

  lemma {:induction false} ManyHold(node: Dict, values: seq<(Name, Val)>, category: Name)
    ensures Get(SetAll(node, values), Plainly(category)) ==
            if LastFor(values, category).Some? then LastFor(values, category) else Get(node, Plainly(category))
  {
    if values != [] {
      var n := |values| - 1;
      ManyHold(node, values[..n], category);
      GetPut(SetAll(node, values[..n]), Plainly(values[n].0), values[n].1, Plainly(category));
    }
  }

  lemma {:induction false} CopiesHold(d: Dict, category: Name, copies: seq<(Name, Val)>, p: Place)
    ensures Held(CopyAll(d, category, copies), p) ==
            if p.Of? && p.level == Device && p.category == category && LastFor(copies, p.target).Some?
            then LastFor(copies, p.target) else Held(d, p)
  {
    if copies != [] {
      var n := |copies| - 1;
      var front, last := CopyAll(d, category, copies[..n]), copies[n];
      CopiesHold(d, category, copies[..n], p);
      TargetHolds(front, Device, last.0, Set(TargetOf(front, Device, last.0), category, last.1), p);
      if p.Of? {
        GetPut(TargetOf(front, Device, last.0), Plainly(category), last.1, Plainly(p.category));
        LevelsAre(front, Device, p.target);
      }
    }
  }

  lemma {:induction false} CopiesLeaveSettings(d: Dict, category: Name, copies: seq<(Name, Val)>, name: string)
    ensures Setting(CopyAll(d, category, copies), name) == Setting(d, name)
  {
    if copies != [] {
      var n := |copies| - 1;
      var front, last := CopyAll(d, category, copies[..n]), copies[n];
      CopiesLeaveSettings(d, category, copies[..n], name);
      SettingsStay(front, DEVICE, Put(LevelOf(front, Device), Plainly(last.0),
        Mapping(Set(TargetOf(front, Device, last.0), category, last.1))), name);
    }
  }

  // ---- the changes ----

  /** What a change makes of a place. */
  function Wanted(d: Dict, e: Edit, p: Place): Option<Val> {
    match e
    case PutSite(c, v) => if p == OfSite(c) then Some(v) else Held(d, p)
    case PutOne(level, t, c, v) => if p == Of(level, t, c) then Some(v) else Held(d, p)
    case PutMany(level, t, values) =>
      if p.Of? && p.level == level && p.target == t && LastFor(values, p.category).Some?
      then LastFor(values, p.category) else Held(d, p)
    case CopyTo(c, copies) =>
      if p.Of? && p.level == Device && p.category == c && LastFor(copies, p.target).Some?
      then LastFor(copies, p.target) else Held(d, p)
    case DeleteSite(c) => if p == OfSite(c) then None else Held(d, p)
    case DeleteTarget(level, t) => if p.Of? && p.level == level && p.target == t then None else Held(d, p)
    case DeleteOne(level, t, c) => if p == Of(level, t, c) then None else Held(d, p)
    case SetMode(_) => Held(d, p)
    case SetSerials(_) => Held(d, p)
  }

  lemma PutOneHolds(d: Dict, level: Level, t: Name, c: Name, v: Val, p: Place)
    ensures Held(SetTarget(d, level, t, Set(TargetOf(d, level, t), c, v)), p) == if p == Of(level, t, c) then Some(v) else Held(d, p)
  {
    TargetHolds(d, level, t, Set(TargetOf(d, level, t), c, v), p);
    if p.Of? {
      GetPut(TargetOf(d, level, t), Plainly(c), v, Plainly(p.category));
      LevelsAre(d, level, p.target);
    }
  }

  lemma PutManyHold(d: Dict, level: Level, t: Name, values: seq<(Name, Val)>, p: Place)
    ensures Held(SetTarget(d, level, t, SetAll(TargetOf(d, level, t), values)), p) == Wanted(d, PutMany(level, t, values), p)
  {
    TargetHolds(d, level, t, SetAll(TargetOf(d, level, t), values), p);
    if p.Of? {
      ManyHold(TargetOf(d, level, t), values, p.category);
      LevelsAre(d, level, p.target);
    }
  }

  lemma DeleteOneHolds(d: Dict, level: Level, t: Name, c: Name, p: Place)
    requires Apply(d, DeleteOne(level, t, c)).Some?
    ensures Held(Apply(d, DeleteOne(level, t, c)).value, p) == if p == Of(level, t, c) then None else Held(d, p)
  {
    var left := Without(TargetOf(d, level, t), Plainly(c));
    GoneHolds(d, level, t, p);
    TargetHolds(d, level, t, left, p);
    if p.Of? {
      GetWithout(TargetOf(d, level, t), Plainly(c), Plainly(p.category));
      LevelsAre(d, level, p.target);
    }
  }

  /** A change sets, copies or deletes what it names, and every other place keeps what
      it holds. */
  lemma EditsDoOneThing(d: Dict, e: Edit, p: Place)
    requires Apply(d, e).Some?
    ensures Held(Apply(d, e).value, p) == Wanted(d, e, p)
  {
    KeysAre();
    match e {
      case PutSite(c, v) =>
        SiteHolds(d, Set(Under(d, "site"), c, v), p);
        GetPut(Under(d, "site"), Plainly(c), v, Plainly(p.category));
      case PutOne(level, t, c, v) => PutOneHolds(d, level, t, c, v, p);
      case PutMany(level, t, values) => PutManyHold(d, level, t, values, p);
      case CopyTo(c, copies) => CopiesHold(d, c, copies, p);
      case DeleteSite(c) =>
        SiteHolds(d, Without(Under(d, "site"), Plainly(c)), p);
        GetWithout(Under(d, "site"), Plainly(c), Plainly(p.category));
      case DeleteTarget(level, t) => GoneHolds(d, level, t, p);
      case DeleteOne(level, t, c) => DeleteOneHolds(d, level, t, c, p);
      case SetMode(mode) => SettingsHold(d, Put(Under(d, "settings"), LOCATION_PUBLISH, Text(mode)), p, "");
      case SetSerials(on) => SettingsHold(d, Put(Under(d, "settings"), PUBLISH_SERIALS, Flag(on)), p, "");
    }
  }

  /** A change is refused exactly when there is nothing of what it deletes, or the mode is
      none of the three. */
  lemma RefusedWhen(d: Dict, e: Edit)
    ensures Apply(d, e).None? <==>
              match e
              case DeleteSite(c) => Held(d, OfSite(c)).None?
              case DeleteTarget(level, t) => Get(Under(d, LevelName(level)), Plainly(t)).None?
              case DeleteOne(level, t, c) => Held(d, Of(level, t, c)).None?
              case SetMode(mode) => mode != Name("off") && mode != Name("coarse") && mode != Name("exact")
              case _ => false
  {
    KeysAre();
    match e {
      case SetMode(mode) => assert MODES[0] == Text(Name("off")) && MODES[1] == Text(Name("coarse")) && MODES[2] == Text(Name("exact"));
      case DeleteOne(level, t, c) => LevelsAre(d, level, t);
      case DeleteTarget(level, t) => LevelsAre(d, level, t);
      case _ =>
    }
  }

  /** Only the two changes to the settings change a setting, each its own. */
  lemma EditsOfSettings(d: Dict, e: Edit, name: string)
    requires Apply(d, e).Some?
    ensures Setting(Apply(d, e).value, name) ==
            if e.SetMode? && name == "location_publish" then Some(Text(e.mode))
            else if e.SetSerials? && name == "publish_serials" then Some(Flag(e.on))
            else Setting(d, name)
  {
    KeysAre();
    var k := Plainly(Name(name));
    match e {
      case PutSite(c, v) => SettingsStay(d, SITE, Set(Under(d, "site"), c, v), name);
      case PutOne(level, t, c, v) =>
        SettingsStay(d, KeyOf(level), Put(LevelOf(d, level), Plainly(t), Mapping(Set(TargetOf(d, level, t), c, v))), name);
      case PutMany(level, t, values) =>
        SettingsStay(d, KeyOf(level), Put(LevelOf(d, level), Plainly(t), Mapping(SetAll(TargetOf(d, level, t), values))), name);
      case CopyTo(c, copies) => CopiesLeaveSettings(d, c, copies, name);
      case DeleteSite(c) => SettingsStay(d, SITE, Without(Under(d, "site"), Plainly(c)), name);
      case DeleteTarget(level, t) => SettingsStay(d, KeyOf(level), Without(LevelOf(d, level), Plainly(t)), name);
      case DeleteOne(level, t, c) =>
        SettingsStay(d, KeyOf(level), Without(LevelOf(d, level), Plainly(t)), name);
        SettingsStay(d, KeyOf(level), Put(LevelOf(d, level), Plainly(t), Mapping(Without(TargetOf(d, level, t), Plainly(c)))), name);
      case SetMode(mode) =>
        SettingsHold(d, Put(Under(d, "settings"), LOCATION_PUBLISH, Text(mode)), OfSite(Name("")), name);
        GetPut(Under(d, "settings"), LOCATION_PUBLISH, Text(mode), k);
      case SetSerials(on) =>
        SettingsHold(d, Put(Under(d, "settings"), PUBLISH_SERIALS, Flag(on)), OfSite(Name("")), name);
        GetPut(Under(d, "settings"), PUBLISH_SERIALS, Flag(on), k);
    }
  }

  // ---- what completing keeps ----

  /** The last mapping under a text, whatever way the key is written. */
  function LastMapping(held: Dict, text: Name): Option<Val> {
    if held == [] then None
    else
      var last := held[|held| - 1];
      if last.key.text == text && last.val.Mapping? then Some(last.val) else LastMapping(held[..|held| - 1], text)
  }

  lemma {:induction false} LastMappingIs(held: Dict, text: Name, i: nat)
    ensures (i < |held| && held[i].key.text == text && held[i].val.Mapping? &&
             forall j :: i < j < |held| ==> held[j].key.text != text || !held[j].val.Mapping?) ==>
              LastMapping(held, text) == Some(held[i].val)
    ensures (forall j :: 0 <= j < |held| ==> held[j].key.text != text || !held[j].val.Mapping?) ==> LastMapping(held, text) == None
  {
    if held != [] && !(held[|held| - 1].key.text == text && held[|held| - 1].val.Mapping?) {
      LastMappingIs(held[..|held| - 1], text, i);
    }
  }

  lemma {:induction false} NormalLevelHolds(held: Dict, text: Name)
    ensures Get(NormalLevel(held), Plainly(text)) == LastMapping(held, text)
  {
    if held != [] {
      var n := |held| - 1;
      NormalLevelHolds(held[..n], text);
      GetPut(NormalLevel(held[..n]), Plainly(held[n].key.text), held[n].val, Plainly(text));
    }
  }

  /** What is under each key once the document was completed: the site as it was, the
      settings and the levels as completing leaves them, every other key untouched. */
  lemma NormalUnder(d: Dict, k: Key)
    ensures Get(Normalize(d), k) ==
            if k == SITE then Some(Mapping(EntriesOf(Get(d, SITE))))
            else if k == SETTINGS then Some(Mapping(NormalSettings(EntriesOf(Get(d, SETTINGS)))))
            else if k == INSTALLATION then Some(Mapping(NormalLevel(EntriesOf(Get(d, INSTALLATION)))))
            else if k == DEVICE then Some(Mapping(NormalLevel(EntriesOf(Get(d, DEVICE)))))
            else if k == SCHEMA && Get(d, SCHEMA).None? then Some(Other(Name("1")))
            else Get(d, k)
  {
    KeysDiffer();
    var a := WithSchema(d);
    var b := WithSettings(a);
    var c := WithSite(b);
    var e := WithLevel(c, INSTALLATION);
    PutSets(d, SCHEMA, ONE);
    PutSets(a, SETTINGS, Mapping(NormalSettings(EntriesOf(Get(a, SETTINGS)))));
    PutSets(b, SITE, Mapping(EntriesOf(Get(b, SITE))));
    PutSets(c, INSTALLATION, Mapping(NormalLevel(EntriesOf(Get(c, INSTALLATION)))));
    PutSets(e, DEVICE, Mapping(NormalLevel(EntriesOf(Get(e, DEVICE)))));
  }

  /** Completing loses nothing that can be used: every place of the site keeps what it
      holds, and a target what the last mapping under its text holds. */
  lemma CompletingKeeps(d: Dict, p: Place)
    ensures Held(Normalize(d), p) ==
            if p.OfSite? then Held(d, p)
            else Get(EntriesOf(LastMapping(Under(d, LevelName(p.level)), p.target)), Plainly(p.category))
  {
    KeysAre();
    KeysDiffer();
    if p.OfSite? {
      NormalUnder(d, SITE);
    } else {
      NormalUnder(d, KeyOf(p.level));
      NormalLevelHolds(Under(d, LevelName(p.level)), p.target);
    }
  }

  /** The mode is kept when it is one of the three, else it is "coarse"; whether serials
      are published only when it is yes or no; every other setting as it is. */
  lemma CompletingSettles(d: Dict, name: string)
    ensures
      var was := Setting(d, name);
      Setting(Normalize(d), name) ==
        if name == "location_publish" then
          (if was in {Some(Text(Name("off"))), Some(Text(Name("coarse"))), Some(Text(Name("exact")))} then was
           else Some(Text(Name("coarse"))))
        else if name == "publish_serials" && was.Some? && !was.value.Flag? then None
        else was
  {
    KeysAre();
    KeysDiffer();
    NormalUnder(d, SETTINGS);
    NormalSettingsHold(Under(d, "settings"), Plainly(Name(name)));
  }

  lemma NormalSettingsHold(s: Dict, k: Key)
    ensures
      var was := Get(s, k);
      Get(NormalSettings(s), k) ==
        if k == LOCATION_PUBLISH then
          (if was in {Some(Text(Name("off"))), Some(Text(Name("coarse"))), Some(Text(Name("exact")))} then was
           else Some(Text(Name("coarse"))))
        else if k == PUBLISH_SERIALS && was.Some? && !was.value.Flag? then None
        else was
  {
    KeysDiffer();
    var mode := Get(s, LOCATION_PUBLISH);
    assert MODES[0] == Text(Name("off")) && MODES[1] == Text(Name("coarse")) && MODES[2] == Text(Name("exact"));
    var t := if mode.Some? && mode.value in MODES then s else Put(s, LOCATION_PUBLISH, COARSE);
    GetPut(s, LOCATION_PUBLISH, COARSE, k);
    GetPut(s, LOCATION_PUBLISH, COARSE, PUBLISH_SERIALS);
    GetWithout(t, PUBLISH_SERIALS, k);
  }
}
