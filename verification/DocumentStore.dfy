/** A configuration document in a file that others may write too: reads follow
    the file, and a change is never made on anything but what the file holds. */
module DocumentStore {
  import opened Prelude
  import A = AttributeDoc

  type Text = string

  /** How documents are written, read and completed, and the revision of a text.
      Reading fails on a text that is not a document. */
  datatype Format<!D> = Format(
    dump: D -> Text, parse: Text -> Option<D>, normalize: D -> D, rev: Text -> Name, default: D)

  const NEVER := Name("")

  /** What was dumped reads back, no revision is empty, and different texts have
      different ones. */
  ghost predicate Sane<D(!new)>(f: Format<D>) {
    && (forall d :: f.parse(f.dump(d)) == Some(d))
    && (forall t :: f.rev(t) != NEVER)
    && (forall t, u :: f.rev(t) == f.rev(u) ==> t == u)
  }

  /** What the store should answer when nothing was there before. */
  datatype Held<D> = Held(doc: D, rev: Name)

  /** What a file means: its document completed, or the default when there is
      none; nothing when it does not parse. */
  function Meaning<D>(f: Format<D>, disk: Option<Text>): Option<Held<D>> {
    match disk
    case None => Some(Held(f.normalize(f.default), NEVER))
    case Some(t) =>
      var d := f.parse(t);
      if d.None? then None else Some(Held(f.normalize(d.value), f.rev(t)))
  }

  /** What the store keeps: the document it answers, its revision, and whether
      the file was unreadable when last looked at. */
  datatype Cache<D> = Cache(doc: D, rev: Name, broken: bool)

  /** The cached document is what its revision means. */
  ghost predicate True<D(!new)>(f: Format<D>, c: Cache<D>) {
    if c.rev == NEVER then c.doc == f.normalize(f.default)
    else exists t :: f.rev(t) == c.rev && Meaning(f, Some(t)) == Some(Held(c.doc, c.rev))
  }

  /** The cached document belongs to its revision: it is what the revision means,
      or the document of that text as it was saved. */
  ghost predicate Known<D(!new)>(f: Format<D>, c: Cache<D>) {
    if c.rev == NEVER then c.doc == f.normalize(f.default)
    else exists t :: Belongs(f, c, t)
  }

  ghost predicate Belongs<D(!new)>(f: Format<D>, c: Cache<D>, t: Text) {
    f.rev(t) == c.rev && f.parse(t).Some? && (c.doc == f.normalize(f.parse(t).value) || c.doc == f.parse(t).value)
  }

  /** Looking at the file: read again only when its revision moved. */
  function Loaded<D>(f: Format<D>, c: Cache<D>, disk: Option<Text>): Cache<D> {
    match disk
    case None => Cache(f.normalize(f.default), NEVER, false)
    case Some(t) =>
      if f.rev(t) == c.rev && !c.broken then c
      else
        var d := f.parse(t);
        if d.None? then c.(broken := true) else Cache(f.normalize(d.value), f.rev(t), false)
  }

  datatype Outcome<D> = Changed(held: Held<D>) | Conflict(rev: Name) | Broken | Refused

  /** A change: a document from a document, or a refusal. */
  type Change<!D> = D -> Option<D>

  // ---- the store as a state machine ----

  /** The file, and what the store keeps of it. */
  datatype State<D> = State(disk: Option<Text>, cache: Cache<D>)

  function Init<D>(f: Format<D>): State<D> {
    State(None, Cache(f.normalize(f.default), NEVER, false))
  }

  /** The store is read, the file is written by others, a change is asked for, or
      the file is made sure to be there. */
  datatype Event<!D> =
    | Reads
    | Rewritten(disk: Option<Text>)
    | Changes(fn: Change<D>, seen: Option<Name>)
    | Ensures

  datatype Answer<D> = Nothing | Read(held: Held<D>) | Made(out: Outcome<D>)

  function Saved<D>(f: Format<D>, d: D): State<D> {
    State(Some(f.dump(d)), Cache(d, f.rev(f.dump(d)), false))
  }

  function Changing<D>(f: Format<D>, s: State<D>, fn: Change<D>, seen: Option<Name>): (State<D>, Outcome<D>) {
    var c := Loaded(f, s.cache, s.disk);
    var looked := State(s.disk, c);
    if c.broken then (looked, Broken)
    else if seen.Some? && seen.value != c.rev then (looked, Conflict(c.rev))
    else
      var d := fn(c.doc);
      if d.None? then (looked, Refused)
      else (Saved(f, d.value), Changed(Held(d.value, f.rev(f.dump(d.value)))))
  }

  function Next<D>(f: Format<D>, s: State<D>, e: Event<D>): (State<D>, Answer<D>) {
    match e
    case Reads =>
      var c := Loaded(f, s.cache, s.disk);
      (State(s.disk, c), Read(Held(c.doc, c.rev)))
    case Rewritten(disk) => (State(disk, s.cache), Nothing)
    case Changes(fn, seen) =>
      var r := Changing(f, s, fn, seen);
      (r.0, Made(r.1))
    case Ensures => (if s.disk.None? then Saved(f, f.normalize(f.default)) else s, Nothing)
  }

  class FileStore<D> {
    var disk: Option<Text>      // the file; others write it too
    var cache: Cache<D>

    function View(): State<D>
      reads this
    {
      State(disk, cache)
    }

    constructor (f: Format<D>)
      ensures View() == Init(f)
    {
      disk, cache := None, Cache(f.normalize(f.default), NEVER, false);
    }

    method Load(f: Format<D>)
      modifies this`cache
      ensures cache == Loaded(f, old(cache), disk)
    {
      if disk.None? {
        cache := Cache(f.normalize(f.default), NEVER, false);
        return;
      }
      var text := disk.value;
      var rev := f.rev(text);
      if rev == cache.rev && !cache.broken {
        return;
      }
      var d := f.parse(text);
      if d.None? {
        cache := cache.(broken := true);
        return;
      }
      cache := Cache(f.normalize(d.value), rev, false);
    }

    /** The document and its revision: the file's, or while it does not parse
        the last good one. */
    method Read(f: Format<D>) returns (held: Held<D>)
      modifies this`cache
      ensures (View(), Answer.Read(held)) == Next(f, old(View()), Reads)
    {
      Load(f);
      held := Held(cache.doc, cache.rev);
    }

    method Save(f: Format<D>, doc: D)
      modifies this
      ensures View() == Saved(f, doc)
    {
      var text := f.dump(doc);
      disk := Some(text);
      cache := Cache(doc, f.rev(text), false);
    }

    /** A change is made to what the file holds, and only when that is what the
        caller saw; else nothing is written. */
    method Mutate(f: Format<D>, fn: Change<D>, seen: Option<Name>) returns (out: Outcome<D>)
      modifies this
      ensures (View(), Made(out)) == Next(f, old(View()), Changes(fn, seen))
    {
      Load(f);
      if cache.broken {
        return Broken;
      }
      if seen.Some? && seen.value != cache.rev {
        return Conflict(cache.rev);
      }
      var doc := fn(cache.doc);
      if doc.None? {
        return Refused;
      }
      Save(f, doc.value);
      out := Changed(Held(cache.doc, cache.rev));
    }

    /** A file is there afterwards: the default when there was none. */
    method Ensure(f: Format<D>)
      modifies this
      ensures (View(), Nothing) == Next(f, old(View()), Ensures)
    {
      if disk.None? {
        Save(f, f.normalize(f.default));
      }
    }
  }

  // ---- one look, one change ----

  /** Looking at the file finds its revision, and leaves a document that belongs to it. */
  lemma LoadedIsKnown<D(!new)>(f: Format<D>, c: Cache<D>, disk: Option<Text>)
    requires Sane(f) && Known(f, c)
    ensures var l := Loaded(f, c, disk);
            && Known(f, l) && l.broken == Meaning(f, disk).None?
            && l.rev == if Meaning(f, disk).Some? then Meaning(f, disk).value.rev else c.rev
  {
    if disk.Some? {
      var t, l := disk.value, Loaded(f, c, disk);
      if f.rev(t) == c.rev && !c.broken {
        var u :| Belongs(f, c, u);
        assert u == t;
      } else if f.parse(t).Some? {
        assert Belongs(f, l, t);
      } else if c.rev != NEVER {
        var u :| Belongs(f, c, u);
        assert Belongs(f, l, u);
      }
    }
  }

  /** Looking at the file leaves a true cache that is the file's meaning, or the
      old one when the file does not parse. */
  lemma LoadedIsTrue<D(!new)>(f: Format<D>, c: Cache<D>, disk: Option<Text>)
    requires Sane(f) && True(f, c)
    ensures var l := Loaded(f, c, disk);
            && True(f, l) && l.broken == Meaning(f, disk).None?
            && (if Meaning(f, disk).Some? then Held(l.doc, l.rev) == Meaning(f, disk).value
                else l.doc == c.doc && l.rev == c.rev)
  {
    if disk.Some? {
      var t := disk.value;
      if f.rev(t) == c.rev && !c.broken {
        var u :| f.rev(u) == c.rev && Meaning(f, Some(u)) == Some(Held(c.doc, c.rev));
        assert u == t;
      } else if f.parse(t).Some? {
        assert Meaning(f, Some(t)) == Some(Held(Loaded(f, c, disk).doc, f.rev(t)));
      }
    }
  }

  /** A change is decided on the file's revision, whatever the store held before. */
  lemma ChangesAreGuarded<D(!new)>(f: Format<D>, s: State<D>, fn: Change<D>, seen: Option<Name>)
    requires Sane(f) && Known(f, s.cache)
    ensures
      var now, out, t := Meaning(f, s.disk), Changing(f, s, fn, seen).1, Changing(f, s, fn, seen).0;
      && (out.Broken? <==> now.None?)
      && (out.Conflict? <==> now.Some? && seen.Some? && seen.value != now.value.rev)
      && (!out.Changed? ==> t.disk == s.disk)
      && (out.Changed? ==> t.disk == Some(f.dump(out.held.doc)))
      && Known(f, t.cache)
  {
    LoadedIsKnown(f, s.cache, s.disk);
    var t, out := Changing(f, s, fn, seen).0, Changing(f, s, fn, seen).1;
    if out.Changed? {
      assert Belongs(f, t.cache, f.dump(out.held.doc));
    }
  }

  /** A change that goes through is made to what the file means, and is what the file
      holds from then on; it is refused when it refuses that. */
  lemma ChangeIsMade<D(!new)>(f: Format<D>, s: State<D>, fn: Change<D>, seen: Option<Name>)
    requires Sane(f) && True(f, s.cache) && Meaning(f, s.disk).Some?
    requires seen == None || seen == Some(Meaning(f, s.disk).value.rev)
    ensures
      var now, out, t := Meaning(f, s.disk).value, Changing(f, s, fn, seen).1, Changing(f, s, fn, seen).0;
      match fn(now.doc)
      case None => out == Refused && t.disk == s.disk
      case Some(d) => out == Changed(Held(d, f.rev(f.dump(d)))) && t == State(Some(f.dump(d)), Cache(d, f.rev(f.dump(d)), false))
  {
    LoadedIsTrue(f, s.cache, s.disk);
  }

  /** A saved document stays what its file means exactly when it is complete:
      the file is not read again while its revision stands. */
  lemma SavedIsTrue<D(!new)>(f: Format<D>, d: D)
    requires Sane(f)
    ensures True(f, Saved(f, d).cache) <==> f.normalize(d) == d
  {
    var t := f.dump(d);
    assert Meaning(f, Some(t)) == Some(Held(f.normalize(d), f.rev(t)));
    if True(f, Saved(f, d).cache) {
      var u :| f.rev(u) == f.rev(t) && Meaning(f, Some(u)) == Some(Held(d, f.rev(t)));
      assert u == t;
    }
  }

  // ---- every run: keeping a copy answers as reading the file each time ----

  /** A store without a copy to trust: it reads the file at every look and after
      every write, and keeps only the last document that could be read. */
  datatype Plain<D> = Plain(disk: Option<Text>, last: Held<D>)

  function PlainInit<D>(f: Format<D>): Plain<D> {
    Plain(None, Held(f.normalize(f.default), NEVER))
  }

  function Looked<D>(f: Format<D>, p: Plain<D>): Plain<D> {
    var now := Meaning(f, p.disk);
    if now.Some? then p.(last := now.value) else p
  }

  function PlainChanging<D>(f: Format<D>, p: Plain<D>, fn: Change<D>, seen: Option<Name>): (Plain<D>, Outcome<D>) {
    var now := Meaning(f, p.disk);
    if now.None? then (p, Broken)
    else if seen.Some? && seen.value != now.value.rev then (Looked(f, p), Conflict(now.value.rev))
    else
      var d := fn(now.value.doc);
      if d.None? then (Looked(f, p), Refused)
      else
        var q := Looked(f, Plain(Some(f.dump(d.value)), now.value));
        (q, Changed(q.last))
  }

  function PlainNext<D>(f: Format<D>, p: Plain<D>, e: Event<D>): (Plain<D>, Answer<D>) {
    match e
    case Reads => (Looked(f, p), Read(Looked(f, p).last))
    case Rewritten(disk) => (Plain(disk, p.last), Nothing)
    case Changes(fn, seen) =>
      var r := PlainChanging(f, p, fn, seen);
      (r.0, Made(r.1))
    case Ensures =>
      (if p.disk.None? then Looked(f, Plain(Some(f.dump(f.normalize(f.default))), p.last)) else p, Nothing)
  }

  function Run<D>(f: Format<D>, events: seq<Event<D>>): (State<D>, seq<Answer<D>>) {
    if events == [] then (Init(f), [])
    else
      var n := |events| - 1;
      var front := Run(f, events[..n]);
      var r := Next(f, front.0, events[n]);
      (r.0, front.1 + [r.1])
  }

  function PlainRun<D>(f: Format<D>, events: seq<Event<D>>): (Plain<D>, seq<Answer<D>>) {
    if events == [] then (PlainInit(f), [])
    else
      var n := |events| - 1;
      var front := PlainRun(f, events[..n]);
      var r := PlainNext(f, front.0, events[n]);
      (r.0, front.1 + [r.1])
  }

  /** Completing twice is completing once. */
  ghost predicate Steady<D(!new)>(f: Format<D>) {
    forall d :: f.normalize(f.normalize(d)) == f.normalize(d)
  }

  /** The change leaves complete documents complete. */
  ghost predicate Keeps<D(!new)>(f: Format<D>, fn: Change<D>) {
    forall d :: f.normalize(d) == d && fn(d).Some? ==> f.normalize(fn(d).value) == fn(d).value
  }

  ghost predicate KeepsAll<D(!new)>(f: Format<D>, events: seq<Event<D>>) {
    forall i :: 0 <= i < |events| && events[i].Changes? ==> Keeps(f, events[i].fn)
  }

  /** The copy is complete, true, and the plain store's last document. */
  ghost predicate Agree<D(!new)>(f: Format<D>, s: State<D>, p: Plain<D>) {
    && s.disk == p.disk && p.last == Held(s.cache.doc, s.cache.rev)
    && True(f, s.cache) && f.normalize(s.cache.doc) == s.cache.doc
  }

  lemma LookAgrees<D(!new)>(f: Format<D>, s: State<D>, p: Plain<D>)
    requires Sane(f) && Steady(f) && Agree(f, s, p)
    ensures var l := Loaded(f, s.cache, s.disk);
            && Agree(f, State(s.disk, l), Looked(f, p)) && l.broken == Meaning(f, s.disk).None?
            && (Meaning(f, s.disk).Some? ==> Meaning(f, s.disk).value == Held(l.doc, l.rev))
  {
    LoadedIsTrue(f, s.cache, s.disk);
  }

  lemma SaveAgrees<D(!new)>(f: Format<D>, d: D, last: Held<D>)
    requires Sane(f) && f.normalize(d) == d
    ensures Agree(f, Saved(f, d), Looked(f, Plain(Some(f.dump(d)), last)))
  {
    SavedIsTrue(f, d);
  }

  lemma ChangeAgrees<D(!new)>(f: Format<D>, s: State<D>, p: Plain<D>, fn: Change<D>, seen: Option<Name>)
    requires Sane(f) && Steady(f) && Agree(f, s, p) && Keeps(f, fn)
    ensures Agree(f, Changing(f, s, fn, seen).0, PlainChanging(f, p, fn, seen).0)
    ensures Changing(f, s, fn, seen).1 == PlainChanging(f, p, fn, seen).1
  {
    LookAgrees(f, s, p);
    var c := Loaded(f, s.cache, s.disk);
    if !c.broken && (seen.None? || seen.value == c.rev) && fn(c.doc).Some? {
      SaveAgrees(f, fn(c.doc).value, Meaning(f, s.disk).value);
    }
  }

  lemma StepAgrees<D(!new)>(f: Format<D>, s: State<D>, p: Plain<D>, e: Event<D>)
    requires Sane(f) && Steady(f) && Agree(f, s, p) && (e.Changes? ==> Keeps(f, e.fn))
    ensures Agree(f, Next(f, s, e).0, PlainNext(f, p, e).0) && Next(f, s, e).1 == PlainNext(f, p, e).1
  {
    match e {
      case Reads => LookAgrees(f, s, p);
      case Rewritten(_) =>
      case Changes(fn, seen) => ChangeAgrees(f, s, p, fn, seen);
      case Ensures => SaveAgrees(f, f.normalize(f.default), p.last);
    }
  }

  /** Over every run of reads, writes by others and changes that keep complete
      documents complete, the store gives the answers of one that reads the file
      each time: what it holds is always what its file means. */
  lemma {:induction false} CopyAnswersAsFile<D(!new)>(f: Format<D>, events: seq<Event<D>>)
    requires Sane(f) && Steady(f) && KeepsAll(f, events)
    ensures Run(f, events).1 == PlainRun(f, events).1
    ensures Agree(f, Run(f, events).0, PlainRun(f, events).0)
  {
    if events != [] {
      var n := |events| - 1;
      CopyAnswersAsFile(f, events[..n]);
      StepAgrees(f, Run(f, events[..n]).0, PlainRun(f, events[..n]).0, events[n]);
    }
  }

  // ---- the attribute document's store ----

  const DEFAULT_ATTRIBUTES: A.Dict := [
    A.Entry(A.SCHEMA, A.ONE), A.Entry(A.SETTINGS, A.Mapping([A.Entry(A.LOCATION_PUBLISH, A.COARSE)])),
    A.Entry(A.SITE, A.Mapping([])), A.Entry(A.INSTALLATION, A.Mapping([])), A.Entry(A.DEVICE, A.Mapping([]))]

  /** The store of the attributes: completing is `AttributeDoc.Normalize`. */
  ghost predicate OfAttributes(f: Format<A.Dict>) {
    && (forall d :: f.normalize(d) == A.Normalize(d))
    && f.default == DEFAULT_ATTRIBUTES
  }

  predicate Edits(fn: Change<A.Dict>, d: A.Dict, e: A.Edit) {
    fn(d) == A.Apply(d, e)
  }

  /** One of the service's changes, chosen perhaps by what it finds: a location that
      only looks changed is put back as it was. */
  ghost predicate IsEdit(fn: Change<A.Dict>) {
    forall d: A.Dict :: HasEdit(fn, d)
  }

  ghost predicate HasEdit(fn: Change<A.Dict>, d: A.Dict) {
    exists e :: Edits(fn, d, e)
  }

  ghost predicate OnlyEdits(events: seq<Event<A.Dict>>) {
    forall i :: 0 <= i < |events| && events[i].Changes? ==> IsEdit(events[i].fn)
  }

  lemma EditsKeep(f: Format<A.Dict>, events: seq<Event<A.Dict>>)
    requires OfAttributes(f) && OnlyEdits(events)
    ensures Steady(f) && KeepsAll(f, events)
  {
    forall d ensures f.normalize(f.normalize(d)) == f.normalize(d) {
      A.NormalizeCompletes(d);
      A.CompleteMeansNormal(A.Normalize(d));
    }
    forall i | 0 <= i < |events| && events[i].Changes? ensures Keeps(f, events[i].fn) {
      forall d | f.normalize(d) == d && events[i].fn(d).Some?
        ensures f.normalize(events[i].fn(d).value) == events[i].fn(d).value
      {
        assert HasEdit(events[i].fn, d);
        var e :| Edits(events[i].fn, d, e);
        A.CompleteMeansNormal(d);
        A.EditsKeepComplete(d, e);
        A.CompleteMeansNormal(A.Apply(d, e).value);
      }
    }
  }

  /** Whatever the service changes and whoever else writes the file: the attributes
      answered are those of the file, completed, or of the last file that could be
      read; and a change is made to those. */
  lemma AttributesFollowTheFile(f: Format<A.Dict>, events: seq<Event<A.Dict>>)
    requires Sane(f) && OfAttributes(f) && OnlyEdits(events)
    ensures Run(f, events).1 == PlainRun(f, events).1
    ensures A.Complete(Run(f, events).0.cache.doc)
  {
    EditsKeep(f, events);
    CopyAnswersAsFile(f, events);
    A.CompleteMeansNormal(Run(f, events).0.cache.doc);
  }
}
