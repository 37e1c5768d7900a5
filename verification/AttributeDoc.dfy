/** The attribute document: what completing one does, and that every change the
    service makes leaves a complete document complete. */
module AttributeDoc {
  import opened Prelude

  /** A key as YAML has it: its text, and whether it was text already. */
  datatype Key = Key(text: Name, isText: bool)

  datatype Val = Mapping(entries: Dict) | Flag(b: bool) | Text(t: Name) | Other(id: Name)
  datatype Entry = Entry(key: Key, val: Val)

  /** A mapping in the order of its keys. */
  type Dict = seq<Entry>

  function Get(d: Dict, k: Key): Option<Val> {
    if d == [] then None else if d[0].key == k then Some(d[0].val) else Get(d[1..], k)
  }

  /** In place if the key is there, else at the end. */
  function Put(d: Dict, k: Key, v: Val): Dict {
    if d == [] then [Entry(k, v)]
    else if d[0].key == k then [Entry(k, v)] + d[1..]
    else [d[0]] + Put(d[1..], k, v)
  }

  function Without(d: Dict, k: Key): Dict {
    if d == [] then [] else (if d[0].key == k then [] else [d[0]]) + Without(d[1..], k)
  }

  lemma {:induction false} GetPut(d: Dict, k: Key, v: Val, other: Key)
    ensures Get(Put(d, k, v), other) == if other == k then Some(v) else Get(d, other)
  {
    if d != [] && d[0].key != k {
      GetPut(d[1..], k, v, other);
      assert Put(d, k, v)[1..] == Put(d[1..], k, v);
    } else if d != [] {
      assert Put(d, k, v)[1..] == d[1..];
    }
  }

  lemma {:induction false} PutSame(d: Dict, k: Key, v: Val)
    requires Get(d, k) == Some(v)
    ensures Put(d, k, v) == d
  {
    if d[0].key == k {
      assert d == [Entry(k, v)] + d[1..];
    } else {
      PutSame(d[1..], k, v);
      assert d == [d[0]] + d[1..];
    }
  }

  lemma {:induction false} GetWithout(d: Dict, k: Key, other: Key)
    ensures Get(Without(d, k), other) == if other == k then None else Get(d, other)
  {
    if d != [] {
      GetWithout(d[1..], k, other);
      if d[0].key != k {
        assert Without(d, k)[1..] == Without(d[1..], k);
      } else {
        assert Without(d, k) == Without(d[1..], k);
      }
    }
  }

  // ---- the document ----

  function Word(s: string): Key {
    Key(Name(s), true)
  }

  const SCHEMA := Word("schema")
  const SETTINGS := Word("settings")
  const SITE := Word("site")
  const INSTALLATION := Word("installation")
  const DEVICE := Word("device")
  const LOCATION_PUBLISH := Word("location_publish")
  const PUBLISH_SERIALS := Word("publish_serials")

  const COARSE := Text(Name("coarse"))
  const MODES: seq<Val> := [Text(Name("off")), COARSE, Text(Name("exact"))]
  const ONE := Other(Name("1"))

  /** The keys of a document are five. */
  lemma KeysDiffer()
    ensures SCHEMA != SETTINGS && SCHEMA != SITE && SCHEMA != INSTALLATION && SCHEMA != DEVICE
    ensures SETTINGS != SITE && SETTINGS != INSTALLATION && SETTINGS != DEVICE
    ensures SITE != INSTALLATION && SITE != DEVICE && INSTALLATION != DEVICE
    ensures LOCATION_PUBLISH != PUBLISH_SERIALS
  {
    assert SCHEMA.text.text[2] == 'h' && SETTINGS.text.text[2] == 't' && SITE.text.text[2] == 't';
    assert INSTALLATION.text.text[2] == 's' && DEVICE.text.text[2] == 'v';
    assert |SETTINGS.text.text| == 8 && |SITE.text.text| == 4;
    assert LOCATION_PUBLISH.text.text[0] == 'l' && PUBLISH_SERIALS.text.text[0] == 'p';
  }

  function EntriesOf(v: Option<Val>): Dict {
    if v.Some? && v.value.Mapping? then v.value.entries else []
  }

  function NormalSettings(settings: Dict): Dict {
    var mode := Get(settings, LOCATION_PUBLISH);
    var s := if mode.Some? && mode.value in MODES then settings else Put(settings, LOCATION_PUBLISH, COARSE);
    var serials := Get(s, PUBLISH_SERIALS);
    if serials.Some? && !serials.value.Flag? then Without(s, PUBLISH_SERIALS) else s
  }

  /** Keys as text, and only entries that are mappings; a later key of the same
      text takes over. */
  function NormalLevel(held: Dict): Dict {
    if held == [] then []
    else
      var n := |held| - 1;
      var front := NormalLevel(held[..n]);
      if held[n].val.Mapping? then Put(front, Key(held[n].key.text, true), held[n].val) else front
  }

  function WithSchema(d: Dict): Dict {
    if Get(d, SCHEMA).Some? then d else Put(d, SCHEMA, ONE)
  }

  function WithSettings(d: Dict): Dict {
    Put(d, SETTINGS, Mapping(NormalSettings(EntriesOf(Get(d, SETTINGS)))))
  }

  function WithSite(d: Dict): Dict {
    Put(d, SITE, Mapping(EntriesOf(Get(d, SITE))))
  }

  function WithLevel(d: Dict, level: Key): Dict {
    Put(d, level, Mapping(NormalLevel(EntriesOf(Get(d, level)))))
  }

  /** A document as the service expects it, whatever a file held. */
  function Normalize(d: Dict): Dict {
    WithLevel(WithLevel(WithSite(WithSettings(WithSchema(d))), INSTALLATION), DEVICE)
  }

  // ---- complete documents ----

  predicate SettingsOk(s: Dict) {
    var mode, serials := Get(s, LOCATION_PUBLISH), Get(s, PUBLISH_SERIALS);
    mode.Some? && mode.value in MODES && (serials.Some? ==> serials.value.Flag?)
  }

  /** Entries are mappings under texts, each text once. */
  predicate LevelOk(held: Dict) {
    && (forall i :: 0 <= i < |held| ==> held[i].key.isText && held[i].val.Mapping?)
    && (forall i, j :: 0 <= i < j < |held| ==> held[i].key != held[j].key)
  }

  predicate HasMapping(d: Dict, k: Key) {
    Get(d, k).Some? && Get(d, k).value.Mapping?
  }

  predicate Complete(d: Dict) {
    && Get(d, SCHEMA).Some?
    && HasMapping(d, SETTINGS) && SettingsOk(EntriesOf(Get(d, SETTINGS)))
    && HasMapping(d, SITE)
    && HasMapping(d, INSTALLATION) && LevelOk(EntriesOf(Get(d, INSTALLATION)))
    && HasMapping(d, DEVICE) && LevelOk(EntriesOf(Get(d, DEVICE)))
  }

  lemma NormalSettingsOk(s: Dict)
    ensures SettingsOk(NormalSettings(s)) && (SettingsOk(s) ==> NormalSettings(s) == s)
  {
    KeysDiffer();
    GetPut(s, LOCATION_PUBLISH, COARSE, LOCATION_PUBLISH);
    GetPut(s, LOCATION_PUBLISH, COARSE, PUBLISH_SERIALS);
    var mode := Get(s, LOCATION_PUBLISH);
    var t := if mode.Some? && mode.value in MODES then s else Put(s, LOCATION_PUBLISH, COARSE);
    GetWithout(t, PUBLISH_SERIALS, LOCATION_PUBLISH);
    GetWithout(t, PUBLISH_SERIALS, PUBLISH_SERIALS);
  }

  lemma {:induction false} PutKeepsLevel(d: Dict, k: Key, v: Val)
    requires LevelOk(d) && k.isText && v.Mapping?
    ensures LevelOk(Put(d, k, v)) && forall e :: e in Put(d, k, v) ==> e.key == k || e in d
  {
    if d != [] && d[0].key != k {
      PutKeepsLevel(d[1..], k, v);
      var rest := Put(d[1..], k, v);
      forall i | 0 <= i < |rest| ensures rest[i].key != d[0].key {
        assert rest[i] in rest;
        assert rest[i].key == k || rest[i] in d[1..];
      }
    }
  }

  lemma {:induction false} WithoutKeepsLevel(d: Dict, k: Key)
    requires LevelOk(d)
    ensures LevelOk(Without(d, k)) && forall e :: e in Without(d, k) ==> e in d
  {
    if d != [] {
      WithoutKeepsLevel(d[1..], k);
      var rest := Without(d[1..], k);
      forall i | 0 <= i < |rest| ensures rest[i].key != d[0].key {
        assert rest[i] in d[1..];
      }
    }
  }

  lemma {:induction false} NormalLevelOk(held: Dict)
    ensures LevelOk(NormalLevel(held))
  {
    if held != [] {
      var n := |held| - 1;
      NormalLevelOk(held[..n]);
      if held[n].val.Mapping? {
        PutKeepsLevel(NormalLevel(held[..n]), Key(held[n].key.text, true), held[n].val);
      }
    }
  }

  lemma {:induction false} PutNew(d: Dict, k: Key, v: Val)
    requires forall i :: 0 <= i < |d| ==> d[i].key != k
    ensures Put(d, k, v) == d + [Entry(k, v)]
  {
    if d != [] {
      PutNew(d[1..], k, v);
    }
  }

  lemma {:induction false} LevelStays(held: Dict)
    requires LevelOk(held)
    ensures NormalLevel(held) == held
  {
    if held != [] {
      var n := |held| - 1;
      LevelStays(held[..n]);
      PutNew(held[..n], held[n].key, held[n].val);
      assert Key(held[n].key.text, true) == held[n].key;
      assert held == held[..n] + [held[n]];
    }
  }

  /** Only key `k` of `e` differs from `d`, and what it holds is `v`. */
  ghost predicate Sets(d: Dict, e: Dict, k: Key, v: Val) {
    forall other :: Get(e, other) == if other == k then Some(v) else Get(d, other)
  }

  lemma PutSets(d: Dict, k: Key, v: Val)
    ensures Sets(d, Put(d, k, v), k, v)
  {
    forall other ensures Get(Put(d, k, v), other) == if other == k then Some(v) else Get(d, other) {
      GetPut(d, k, v, other);
    }
  }

  /** Completing completes. */
  lemma NormalizeCompletes(d: Dict)
    ensures Complete(Normalize(d))
  {
    KeysDiffer();
    var a := WithSchema(d);
    var b := WithSettings(a);
    var c := WithSite(b);
    var e := WithLevel(c, INSTALLATION);
    PutSets(d, SCHEMA, ONE);
    PutSets(a, SETTINGS, Mapping(NormalSettings(EntriesOf(Get(a, SETTINGS)))));
    PutSets(b, SITE, Mapping(EntriesOf(Get(b, SITE))));
    PutSets(c, INSTALLATION, Mapping(NormalLevel(EntriesOf(Get(c, INSTALLATION)))));
    PutSets(e, DEVICE, Mapping(NormalLevel(EntriesOf(Get(e, DEVICE)))));
    NormalSettingsOk(EntriesOf(Get(a, SETTINGS)));
    NormalLevelOk(EntriesOf(Get(c, INSTALLATION)));
    NormalLevelOk(EntriesOf(Get(e, DEVICE)));
  }

  lemma CompleteStays(d: Dict)
    requires Complete(d)
    ensures Normalize(d) == d
  {
    NormalSettingsOk(EntriesOf(Get(d, SETTINGS)));
    PutSame(d, SETTINGS, Get(d, SETTINGS).value);
    PutSame(d, SITE, Get(d, SITE).value);
    LevelStays(EntriesOf(Get(d, INSTALLATION)));
    LevelStays(EntriesOf(Get(d, DEVICE)));
    PutSame(d, INSTALLATION, Get(d, INSTALLATION).value);
    PutSame(d, DEVICE, Get(d, DEVICE).value);
  }

  /** A document is complete exactly when completing it changes nothing. */
  lemma CompleteMeansNormal(d: Dict)
    ensures Complete(d) <==> Normalize(d) == d
  {
    NormalizeCompletes(d);
    if Complete(d) {
      CompleteStays(d);
    }
  }

  // ---- the changes the service makes ----

  datatype Level = Installation | Device

  function KeyOf(level: Level): Key {
    if level.Installation? then INSTALLATION else DEVICE
  }

  /** What the service's changes do: set a category, several, or copies of one;
      delete a category or all of a target; and the two settings. */
  datatype Edit =
    | PutSite(category: Name, value: Val)
    | PutOne(level: Level, target: Name, category: Name, value: Val)
    | PutMany(level: Level, target: Name, values: seq<(Name, Val)>)
    | CopyTo(category: Name, copies: seq<(Name, Val)>)
    | DeleteSite(category: Name)
    | DeleteTarget(level: Level, target: Name)
    | DeleteOne(level: Level, target: Name, category: Name)
    | SetMode(mode: Name)
    | SetSerials(on: bool)

  function Set(d: Dict, category: Name, v: Val): Dict {
    Put(d, Key(category, true), v)
  }

  function SetAll(node: Dict, values: seq<(Name, Val)>): Dict {
    if values == [] then node
    else Set(SetAll(node, values[..|values| - 1]), values[|values| - 1].0, values[|values| - 1].1)
  }

  function LevelOf(d: Dict, level: Level): Dict {
    EntriesOf(Get(d, KeyOf(level)))
  }

  function TargetOf(d: Dict, level: Level, target: Name): Dict {
    EntriesOf(Get(LevelOf(d, level), Key(target, true)))
  }

  function SetLevel(d: Dict, level: Level, held: Dict): Dict {
    Put(d, KeyOf(level), Mapping(held))
  }

  function SetTarget(d: Dict, level: Level, target: Name, node: Dict): Dict {
    SetLevel(d, level, Put(LevelOf(d, level), Key(target, true), Mapping(node)))
  }

  function CopyAll(d: Dict, category: Name, copies: seq<(Name, Val)>): Dict {
    if copies == [] then d
    else
      var front, last := CopyAll(d, category, copies[..|copies| - 1]), copies[|copies| - 1];
      SetTarget(front, Device, last.0, Set(TargetOf(front, Device, last.0), category, last.1))
  }

  /** The document a change makes; none when it is refused. */
  function Apply(d: Dict, e: Edit): Option<Dict> {
    match e
    case PutSite(c, v) => Some(Put(d, SITE, Mapping(Set(EntriesOf(Get(d, SITE)), c, v))))
    case PutOne(level, t, c, v) => Some(SetTarget(d, level, t, Set(TargetOf(d, level, t), c, v)))
    case PutMany(level, t, values) => Some(SetTarget(d, level, t, SetAll(TargetOf(d, level, t), values)))
    case CopyTo(c, copies) => Some(CopyAll(d, c, copies))
    case DeleteSite(c) =>
      var node := EntriesOf(Get(d, SITE));
      if Get(node, Key(c, true)).None? then None else Some(Put(d, SITE, Mapping(Without(node, Key(c, true)))))
    case DeleteTarget(level, t) =>
      var held := LevelOf(d, level);
      if Get(held, Key(t, true)).None? then None else Some(SetLevel(d, level, Without(held, Key(t, true))))
    case DeleteOne(level, t, c) =>
      var held, node := LevelOf(d, level), TargetOf(d, level, t);
      if Get(held, Key(t, true)).None? || Get(node, Key(c, true)).None? then None
      else
        var left := Without(node, Key(c, true));
        Some(if left == [] then SetLevel(d, level, Without(held, Key(t, true))) else SetTarget(d, level, t, left))
    case SetMode(mode) =>
      if Text(mode) !in MODES then None
      else Some(Put(d, SETTINGS, Mapping(Put(EntriesOf(Get(d, SETTINGS)), LOCATION_PUBLISH, Text(mode)))))
    case SetSerials(on) =>
      Some(Put(d, SETTINGS, Mapping(Put(EntriesOf(Get(d, SETTINGS)), PUBLISH_SERIALS, Flag(on)))))
  }

  lemma SiteKeeps(d: Dict, site: Dict)
    requires Complete(d)
    ensures Complete(Put(d, SITE, Mapping(site)))
  {
    KeysDiffer();
    PutSets(d, SITE, Mapping(site));
  }

  lemma SettingsKeep(d: Dict, settings: Dict)
    requires Complete(d) && SettingsOk(settings)
    ensures Complete(Put(d, SETTINGS, Mapping(settings)))
  {
    KeysDiffer();
    PutSets(d, SETTINGS, Mapping(settings));
  }

  lemma LevelKeeps(d: Dict, level: Level, held: Dict)
    requires Complete(d) && LevelOk(held)
    ensures Complete(SetLevel(d, level, held))
  {
    KeysDiffer();
    PutSets(d, KeyOf(level), Mapping(held));
  }

  lemma TargetKeeps(d: Dict, level: Level, target: Name, node: Dict)
    requires Complete(d)
    ensures Complete(SetTarget(d, level, target, node))
  {
    PutKeepsLevel(LevelOf(d, level), Key(target, true), Mapping(node));
    LevelKeeps(d, level, Put(LevelOf(d, level), Key(target, true), Mapping(node)));
  }

  lemma DeletedKeeps(d: Dict, level: Level, target: Name)
    requires Complete(d)
    ensures Complete(SetLevel(d, level, Without(LevelOf(d, level), Key(target, true))))
  {
    WithoutKeepsLevel(LevelOf(d, level), Key(target, true));
    LevelKeeps(d, level, Without(LevelOf(d, level), Key(target, true)));
  }

  lemma {:induction false} CopiesKeep(d: Dict, category: Name, copies: seq<(Name, Val)>)
    requires Complete(d)
    ensures Complete(CopyAll(d, category, copies))
  {
    if copies != [] {
      var front, last := CopyAll(d, category, copies[..|copies| - 1]), copies[|copies| - 1];
      CopiesKeep(d, category, copies[..|copies| - 1]);
      TargetKeeps(front, Device, last.0, Set(TargetOf(front, Device, last.0), category, last.1));
    }
  }

  lemma ModeKeeps(settings: Dict, mode: Name, on: bool)
    requires SettingsOk(settings)
    ensures Text(mode) in MODES ==> SettingsOk(Put(settings, LOCATION_PUBLISH, Text(mode)))
    ensures SettingsOk(Put(settings, PUBLISH_SERIALS, Flag(on)))
  {
    KeysDiffer();
    GetPut(settings, LOCATION_PUBLISH, Text(mode), LOCATION_PUBLISH);
    GetPut(settings, LOCATION_PUBLISH, Text(mode), PUBLISH_SERIALS);
    GetPut(settings, PUBLISH_SERIALS, Flag(on), LOCATION_PUBLISH);
    GetPut(settings, PUBLISH_SERIALS, Flag(on), PUBLISH_SERIALS);
  }

  /** Whatever the change, a complete document stays complete. */
  lemma EditsKeepComplete(d: Dict, e: Edit)
    requires Complete(d) && Apply(d, e).Some?
    ensures Complete(Apply(d, e).value)
  {
    match e {
      case PutSite(c, v) => SiteKeeps(d, Set(EntriesOf(Get(d, SITE)), c, v));
      case PutOne(level, t, c, v) => TargetKeeps(d, level, t, Set(TargetOf(d, level, t), c, v));
      case PutMany(level, t, values) => TargetKeeps(d, level, t, SetAll(TargetOf(d, level, t), values));
      case CopyTo(c, copies) => CopiesKeep(d, c, copies);
      case DeleteSite(c) => SiteKeeps(d, Without(EntriesOf(Get(d, SITE)), Key(c, true)));
      case DeleteTarget(level, t) => DeletedKeeps(d, level, t);
      case DeleteOne(level, t, c) =>
        DeletedKeeps(d, level, t);
        TargetKeeps(d, level, t, Without(TargetOf(d, level, t), Key(c, true)));
      case SetMode(mode) =>
        ModeKeeps(EntriesOf(Get(d, SETTINGS)), mode, true);
        SettingsKeep(d, Put(EntriesOf(Get(d, SETTINGS)), LOCATION_PUBLISH, Text(mode)));
      case SetSerials(on) =>
        ModeKeeps(EntriesOf(Get(d, SETTINGS)), Name(""), on);
        SettingsKeep(d, Put(EntriesOf(Get(d, SETTINGS)), PUBLISH_SERIALS, Flag(on)));
    }
  }
}
