/** The audit log: lines appended to a file that is rotated by size, and the
    newest entries read back over all files. */
module Audit {
  import opened Prelude

  type Lines = seq<string>

  /** The files: 0 is the current one, `i` the i-th archive. */
  type Files = map<nat, Lines>

  function File(files: Files, i: nat): Lines {
    if i in files then files[i] else []
  }

  /** All lines of the files 0..k, oldest first. */
  function Content(files: Files, k: nat): Lines {
    if k == 0 then File(files, 0) else File(files, k) + Content(files, k - 1)
  }

  function Utf8(c: char): nat {
    if c < '\U{80}' then 1 else if c < '\U{800}' then 2 else if c < '\U{10000}' then 3 else 4
  }

  function Bytes(line: string): nat {
    if line == "" then 0 else Utf8(line[0]) + Bytes(line[1..])
  }

  /** The size of a file: every line with its line end. */
  function Size(lines: Lines): nat {
    if lines == [] then 0 else Bytes(lines[0]) + 1 + Size(lines[1..])
  }

  // ---- one append ----

  predicate HasNewer(files: Files, i: nat) {
    i >= 1 && i - 1 in files
  }

  /** Every file one place older; the oldest archive is gone. */
  function Shifted(files: Files, keep: nat): Files {
    map i: nat | i <= keep && HasNewer(files, i) :: files[i - 1]
  }

  /** Whether the current file has no room for a line: its size counts bytes,
      the line counts characters. */
  predicate Full(files: Files, line: string, rotateBytes: int) {
    Size(File(files, 0)) + |line| + 1 > rotateBytes
  }

  function Appended(files: Files, line: string, rotateBytes: int, keep: nat): Files {
    var f := if Full(files, line, rotateBytes) then Shifted(files, keep) else files;
    f[0 := File(f, 0) + [line]]
  }

  // ---- reading back ----

  /** What a line parses to: an entry with its user, or another JSON value. */
  datatype Entry = Entry(isObject: bool, user: Name, text: string)

  /** Reading one line; none when it is no JSON. */
  type Parser = string -> Option<Entry>

  /** Where str.splitlines() breaks a text. */
  predicate IsBreak(c: char) {
    '\U{a}' <= c <= '\U{d}' || '\U{1c}' <= c <= '\U{1e}' || c == '\U{85}' || c == '\U{2028}' || c == '\U{2029}'
  }

  predicate Plain(line: string) {
    forall i :: 0 <= i < |line| ==> !IsBreak(line[i])
  }

  /** The text of a file. */
  function Text(lines: Lines): string {
    if lines == [] then "" else lines[0] + "\n" + Text(lines[1..])
  }

  /** How much of a text its first break takes: a carriage return and the line
      feed after it are one. */
  function BreakLength(text: string): nat {
    if |text| > 1 && text[0] == '\r' && text[1] == '\n' then 2 else 1
  }

  /** The pieces of a text between its breaks; `begun` is the piece begun. */
  function Split(text: string, begun: string): Lines
    decreases |text|
  {
    if text == "" then (if begun == "" then [] else [begun])
    else if IsBreak(text[0]) then [begun] + Split(text[BreakLength(text)..], "")
    else Split(text[1..], begun + [text[0]])
  }

  function FileRead(files: Files, i: nat): Lines {
    Split(Text(File(files, i)), "")
  }

  /** All lines as read from the files 0..k, oldest first. */
  function Readable(files: Files, k: nat): Lines {
    if k == 0 then FileRead(files, 0) else FileRead(files, k) + Readable(files, k - 1)
  }

  /** The entries wanted among some lines, newest first. */
  function Newest(lines: Lines, parse: Parser, wanted: Entry -> bool): seq<Entry> {
    if lines == [] then []
    else
      var e := parse(lines[|lines| - 1]);
      (if e.Some? && wanted(e.value) then [e.value] else []) + Newest(lines[..|lines| - 1], parse, wanted)
  }

  /** How many entries end the search: one is always given. */
  function Enough(limit: int): nat {
    if limit < 1 then 1 else limit
  }

  function First<T>(s: seq<T>, n: nat): seq<T> {
    if |s| <= n then s else s[..n]
  }

  lemma FirstOfPrefix<T>(a: seq<T>, b: seq<T>, n: nat)
    requires a <= b && |a| >= n
    ensures First(a, n) == First(b, n)
  {
  }

  lemma {:induction false} NewestAppend(a: Lines, b: Lines, parse: Parser, wanted: Entry -> bool)
    ensures Newest(a + b, parse, wanted) == Newest(b, parse, wanted) + Newest(a, parse, wanted)
    decreases |b|
  {
    if b == [] {
      assert a + b == a;
    } else {
      var n := |b| - 1;
      assert (a + b)[|a + b| - 1] == b[n] && (a + b)[..|a + b| - 1] == a + b[..n];
      NewestAppend(a, b[..n], parse, wanted);
      var e := parse(b[n]);
      var head := if e.Some? && wanted(e.value) then [e.value] else [];
      assert head + (Newest(b[..n], parse, wanted) + Newest(a, parse, wanted))
          == (head + Newest(b[..n], parse, wanted)) + Newest(a, parse, wanted);
    }
  }

  lemma PrefixesJoin<T>(a: seq<T>, b: seq<T>, c: seq<T>)
    requires a <= b <= c
    ensures a <= c
  {
  }

  lemma OneMoreFile(files: Files, k: nat, parse: Parser, wanted: Entry -> bool)
    requires k > 0
    ensures Newest(Readable(files, k - 1), parse, wanted) <= Newest(Readable(files, k), parse, wanted)
  {
    NewestAppend(FileRead(files, k), Readable(files, k - 1), parse, wanted);
  }

  /** The newest entries of the newer files come first. */
  lemma {:induction false} NewerFilesFirst(files: Files, i: nat, k: nat, parse: Parser, wanted: Entry -> bool)
    requires i <= k
    ensures Newest(Readable(files, i), parse, wanted) <= Newest(Readable(files, k), parse, wanted)
    decreases k
  {
    if i < k {
      NewerFilesFirst(files, i, k - 1, parse, wanted);
      OneMoreFile(files, k, parse, wanted);
      PrefixesJoin(Newest(Readable(files, i), parse, wanted), Newest(Readable(files, k - 1), parse, wanted),
                   Newest(Readable(files, k), parse, wanted));
    }
  }

  /** What is read before file `i`. */
  function ReadBefore(files: Files, i: nat): Lines {
    if i == 0 then [] else Readable(files, i - 1)
  }

  lemma ReadNext(files: Files, i: nat, parse: Parser, wanted: Entry -> bool)
    ensures Newest(Readable(files, i), parse, wanted) ==
            Newest(ReadBefore(files, i), parse, wanted) + Newest(FileRead(files, i), parse, wanted)
  {
    NewestAppend(FileRead(files, i), ReadBefore(files, i), parse, wanted);
    assert i == 0 ==> FileRead(files, i) + [] == FileRead(files, i);
  }

  lemma ReadStep(files: Files, i: nat, keep: nat, limit: int, parse: Parser, wanted: Entry -> bool,
                 out: seq<Entry>, next: seq<Entry>)
    requires i <= keep && out == Newest(ReadBefore(files, i), parse, wanted)
    requires next == First(out + Newest(FileRead(files, i), parse, wanted), Enough(limit))
    ensures |next| < Enough(limit) ==> next == Newest(ReadBefore(files, i + 1), parse, wanted)
    ensures |next| >= Enough(limit) ==> next == First(Newest(Readable(files, keep), parse, wanted), Enough(limit))
  {
    ReadNext(files, i, parse, wanted);
    var all := Newest(Readable(files, i), parse, wanted);
    if |all| >= Enough(limit) {
      NewerFilesFirst(files, i, keep, parse, wanted);
      FirstOfPrefix(all, Newest(Readable(files, keep), parse, wanted), Enough(limit));
    }
  }

  /** Where a search by user and text stops: at what it wants, and at a value that
      has no user to ask for. */
  function Stops(user: Option<Name>, holds: Entry -> bool): Entry -> bool {
    (e: Entry) => if user.Some? && !e.isObject then true else (user.None? || e.user == user.value) && holds(e)
  }

  predicate AllFine(found: seq<Entry>, user: Option<Name>) {
    user.Some? ==> forall i :: 0 <= i < |found| ==> found[i].isObject
  }

  datatype Answer = Entries(out: seq<Entry>) | Broke

  /** What a search that stopped at these answers: asking a value that is no entry
      for its user breaks it off. */
  function AnswerOf(found: seq<Entry>, user: Option<Name>): Answer {
    if AllFine(found, user) then Entries(found) else Broke
  }

  lemma FirstKeepsTrouble(a: seq<Entry>, b: seq<Entry>, n: nat, user: Option<Name>)
    requires a <= b && !AllFine(First(a, n), user)
    ensures !AllFine(First(b, n), user)
  {
    var i :| 0 <= i < |First(a, n)| && !First(a, n)[i].isObject;
    assert First(b, n)[i] == First(a, n)[i];
  }

  /** What a search over all files answers. */
  function Searched(files: Files, keep: nat, limit: int, parse: Parser, user: Option<Name>, holds: Entry -> bool): Answer {
    AnswerOf(First(Newest(Readable(files, keep), parse, Stops(user, holds)), Enough(limit)), user)
  }

  lemma TroubleStays(files: Files, i: nat, keep: nat, limit: int, parse: Parser, user: Option<Name>,
                     holds: Entry -> bool, out: seq<Entry>)
    requires i <= keep && out == Newest(ReadBefore(files, i), parse, Stops(user, holds))
    requires !AllFine(First(out + Newest(FileRead(files, i), parse, Stops(user, holds)), Enough(limit)), user)
    ensures Searched(files, keep, limit, parse, user, holds) == Broke
  {
    var wanted := Stops(user, holds);
    ReadNext(files, i, parse, wanted);
    NewerFilesFirst(files, i, keep, parse, wanted);
    FirstKeepsTrouble(Newest(Readable(files, i), parse, wanted), Newest(Readable(files, keep), parse, wanted),
                      Enough(limit), user);
  }

  lemma EnoughIsAll(files: Files, i: nat, keep: nat, limit: int, parse: Parser, user: Option<Name>,
                    holds: Entry -> bool, out: seq<Entry>, next: seq<Entry>)
    requires i <= keep && out == Newest(ReadBefore(files, i), parse, Stops(user, holds))
    requires next == First(out + Newest(FileRead(files, i), parse, Stops(user, holds)), Enough(limit))
    requires AllFine(next, user)
    ensures |next| < Enough(limit) ==> next == Newest(ReadBefore(files, i + 1), parse, Stops(user, holds))
    ensures |next| >= Enough(limit) ==> Searched(files, keep, limit, parse, user, holds) == Entries(next)
  {
    ReadStep(files, i, keep, limit, parse, Stops(user, holds), out, next);
  }

  lemma AllIsSearched(files: Files, keep: nat, limit: int, parse: Parser, user: Option<Name>,
                      holds: Entry -> bool, out: seq<Entry>)
    requires out == Newest(Readable(files, keep), parse, Stops(user, holds)) && |out| < Enough(limit)
    requires AllFine(out, user)
    ensures Searched(files, keep, limit, parse, user, holds) == Entries(out)
  {
  }

  /** One file, its last line first. */
  method ReadFile(lines: Lines, sofar: seq<Entry>, limit: int, parse: Parser, user: Option<Name>, holds: Entry -> bool)
    returns (out: seq<Entry>, broke: bool)
    requires |sofar| < Enough(limit) && AllFine(sofar, user)
    ensures !broke ==> out == First(sofar + Newest(lines, parse, Stops(user, holds)), Enough(limit)) && AllFine(out, user)
    ensures broke ==> !AllFine(First(sofar + Newest(lines, parse, Stops(user, holds)), Enough(limit)), user)
  {
    out, broke := sofar, false;
    ghost var wanted := Stops(user, holds);
    var n := |lines|;
    assert lines[..n] == lines;
    while n > 0
      invariant 0 <= n <= |lines| && |out| < Enough(limit) && AllFine(out, user)
      invariant out + Newest(lines[..n], parse, wanted) == sofar + Newest(lines, parse, wanted)
    {
      n := n - 1;
      var e := parse(lines[n]);
      assert lines[..n + 1][..n] == lines[..n] && lines[..n + 1][n] == lines[n];
      ghost var rest := Newest(lines[..n], parse, wanted);
      if e.Some? && user.Some? && !e.value.isObject {
        assert (out + ([e.value] + rest))[|out|] == e.value;
        assert First(out + ([e.value] + rest), Enough(limit))[|out|] == e.value;
        return out, true;
      }
      if e.Some? && (user.None? || e.value.user == user.value) && holds(e.value) {
        assert out + ([e.value] + rest) == (out + [e.value]) + rest;
        out := out + [e.value];
        if |out| >= limit {
          assert (out + rest)[..|out|] == out;
          return;
        }
      } else {
        assert [] + rest == rest;
      }
    }
  }

  lemma NothingYet(files: Files, parse: Parser, wanted: Entry -> bool)
    ensures Newest(ReadBefore(files, 0), parse, wanted) == []
  {
  }

  /** These are places of wanted lines, with their entries. */
  ghost predicate EachIsWanted(at: seq<nat>, found: seq<Entry>, lines: Lines, parse: Parser, wanted: Entry -> bool) {
    |at| == |found| &&
    forall k :: 0 <= k < |at| ==> at[k] < |lines| && parse(lines[at[k]]) == Some(found[k]) && wanted(found[k])
  }

  ghost predicate NoneIsMissing(at: seq<nat>, lines: Lines, parse: Parser, wanted: Entry -> bool) {
    forall i: nat :: i < |lines| && Wanted(lines[i], parse, wanted) ==> i in at
  }

  ghost predicate FromTheLast(at: seq<nat>) {
    forall k, l :: 0 <= k < l < |at| ==> at[k] > at[l]
  }

  /** The places of the lines that were found: from the last on, each wanted one. */
  ghost predicate FoundAt(at: seq<nat>, found: seq<Entry>, lines: Lines, parse: Parser, wanted: Entry -> bool) {
    EachIsWanted(at, found, lines, parse, wanted) && NoneIsMissing(at, lines, parse, wanted) && FromTheLast(at)
  }

  ghost function Places(lines: Lines, parse: Parser, wanted: Entry -> bool): seq<nat> {
    if lines == [] then []
    else
      var n := |lines| - 1;
      (if Wanted(lines[n], parse, wanted) then [n] else []) + Places(lines[..n], parse, wanted)
  }

  lemma {:induction false} PlacesAre(lines: Lines, parse: Parser, wanted: Entry -> bool)
    ensures FoundAt(Places(lines, parse, wanted), Newest(lines, parse, wanted), lines, parse, wanted)
  {
    if lines != [] {
      PlacesAre(lines[..|lines| - 1], parse, wanted);
      PlacesNext(lines, parse, wanted, Places(lines[..|lines| - 1], parse, wanted), Newest(lines[..|lines| - 1], parse, wanted));
    }
  }

  lemma PlacesNext(lines: Lines, parse: Parser, wanted: Entry -> bool, at: seq<nat>, found: seq<Entry>)
    requires lines != [] && FoundAt(at, found, lines[..|lines| - 1], parse, wanted)
    ensures
      var e := parse(lines[|lines| - 1]);
      FoundAt((if Wanted(lines[|lines| - 1], parse, wanted) then [|lines| - 1] else []) + at,
              (if e.Some? && wanted(e.value) then [e.value] else []) + found, lines, parse, wanted)
  {
    var n := |lines| - 1;
    EachStays(at, found, lines, parse, wanted);
    if Wanted(lines[n], parse, wanted) {
      NoneMissingFirst(at, lines, parse, wanted);
      EachFirst(at, found, lines, parse, wanted);
      LastFirst(at, n);
    } else {
      NoneMissingStays(at, lines, parse, wanted);
      assert [] + at == at && [] + found == found;
    }
  }

  lemma EachStays(at: seq<nat>, found: seq<Entry>, lines: Lines, parse: Parser, wanted: Entry -> bool)
    requires lines != [] && EachIsWanted(at, found, lines[..|lines| - 1], parse, wanted)
    ensures EachIsWanted(at, found, lines, parse, wanted) && forall k :: 0 <= k < |at| ==> at[k] < |lines| - 1
  {
  }

  lemma EachFirst(at: seq<nat>, found: seq<Entry>, lines: Lines, parse: Parser, wanted: Entry -> bool)
    requires lines != [] && EachIsWanted(at, found, lines, parse, wanted) && Wanted(lines[|lines| - 1], parse, wanted)
    ensures EachIsWanted([|lines| - 1] + at, [parse(lines[|lines| - 1]).value] + found, lines, parse, wanted)
  {
  }

  lemma LastFirst(at: seq<nat>, n: nat)
    requires FromTheLast(at) && forall k :: 0 <= k < |at| ==> at[k] < n
    ensures FromTheLast([n] + at)
  {
  }

  lemma NoneMissingStays(at: seq<nat>, lines: Lines, parse: Parser, wanted: Entry -> bool)
    requires lines != [] && NoneIsMissing(at, lines[..|lines| - 1], parse, wanted)
    requires !Wanted(lines[|lines| - 1], parse, wanted)
    ensures NoneIsMissing(at, lines, parse, wanted)
  {
    forall i: nat | i < |lines| && Wanted(lines[i], parse, wanted) ensures i in at {
      assert Wanted(lines[..|lines| - 1][i], parse, wanted);
    }
  }

  lemma NoneMissingFirst(at: seq<nat>, lines: Lines, parse: Parser, wanted: Entry -> bool)
    requires lines != [] && NoneIsMissing(at, lines[..|lines| - 1], parse, wanted)
    ensures NoneIsMissing([|lines| - 1] + at, lines, parse, wanted)
  {
    var n := |lines| - 1;
    forall i: nat | i < |lines| && Wanted(lines[i], parse, wanted) ensures i in [n] + at {
      if i < n {
        assert Wanted(lines[..n][i], parse, wanted);
      }
    }
  }

  /** What is found is every wanted line's entry once, the newest first. */
  lemma NewestAre(lines: Lines, parse: Parser, wanted: Entry -> bool)
    ensures exists at :: FoundAt(at, Newest(lines, parse, wanted), lines, parse, wanted)
  {
    PlacesAre(lines, parse, wanted);
  }

  /** A search is for the entries of a user, or of anyone, that hold what is looked for;
      with a user it also stops at what is no entry. */
  lemma StopsAt(user: Option<Name>, holds: Entry -> bool, e: Entry)
    ensures Stops(user, holds)(e) <==> (user == None && holds(e)) || (user.Some? && (!e.isObject || (e.user == user.value && holds(e))))
  {
  }

  lemma FirstIs<T>(s: seq<T>, n: nat)
    ensures First(s, n) <= s && (|First(s, n)| == n || (|First(s, n)| < n && First(s, n) == s))
  {
  }

  /** The answer is the first of what was found, `most` of it or all there is; an error when
      one of these is no entry and a user was asked for. */
  ghost predicate Gives(answer: Answer, all: seq<Entry>, most: nat, user: Option<Name>) {
    match answer
    case Entries(out) => out <= all && (|out| == most || (|out| < most && out == all))
                         && (user.Some? ==> forall i :: 0 <= i < |out| ==> out[i].isObject)
    case Broke => user.Some? && exists i :: 0 <= i < |all| && i < most && !all[i].isObject
  }

  lemma AnswerGives(all: seq<Entry>, n: nat, user: Option<Name>)
    ensures Gives(AnswerOf(First(all, n), user), all, n, user)
  {
    var found := First(all, n);
    FirstIs(all, n);
    if !AllFine(found, user) {
      var i :| 0 <= i < |found| && !found[i].isObject;
      assert !all[i].isObject;
    }
  }

  /** A search gives the newest of what it stops at, as many as were asked for and one at
      least, and breaks off exactly when one of these is no entry and a user was asked for. */
  lemma SearchGives(files: Files, keep: nat, limit: int, parse: Parser, user: Option<Name>, holds: Entry -> bool)
    ensures Gives(Searched(files, keep, limit, parse, user, holds),
                  Newest(Readable(files, keep), parse, Stops(user, holds)), if limit >= 1 then limit else 1, user)
  {
    AnswerGives(Newest(Readable(files, keep), parse, Stops(user, holds)), if limit >= 1 then limit else 1, user);
  }

  /** All files, the newest first. */
  method Search(files: Files, keep: nat, limit: int, parse: Parser, user: Option<Name>, holds: Entry -> bool)
    returns (answer: Answer)
    ensures answer == Searched(files, keep, limit, parse, user, holds)
  {
    var out: seq<Entry> := [];
    NothingYet(files, parse, Stops(user, holds));
    for i := 0 to keep + 1
      invariant out == Newest(ReadBefore(files, i), parse, Stops(user, holds))
      invariant |out| < Enough(limit) && AllFine(out, user)
    {
      var next, broke := ReadFile(FileRead(files, i), out, limit, parse, user, holds);
      if broke {
        TroubleStays(files, i, keep, limit, parse, user, holds, out);
        return Broke;
      }
      EnoughIsAll(files, i, keep, limit, parse, user, holds, out, next);
      out := next;
      if |out| >= Enough(limit) {
        return Entries(out);
      }
    }
    AllIsSearched(files, keep, limit, parse, user, holds, out);
    answer := Entries(out);
  }

  /** Renaming one file to the next place, if it is there. */
  function Moved(files: Files, i: nat): Files {
    if i in files then files[i + 1 := files[i]] - {i} else files
  }

  /** The files above place `i` have moved, those up to it have not. */
  ghost predicate PartShifted(was: Files, now: Files, keep: nat, i: int) {
    forall j: nat {:trigger File(now, j)} {:trigger j in now} ::
      (j in now <==> if j <= i then j in was else i + 2 <= j <= keep && HasNewer(was, j)) &&
      (j in now ==> now[j] == was[if j <= i then j else j - 1])
  }

  lemma MoveOne(was: Files, now: Files, keep: nat, i: nat)
    requires i < keep && PartShifted(was, now, keep, i)
    ensures PartShifted(was, Moved(now, i), keep, i - 1)
  {
    assert HasNewer(was, i + 1) <==> i in was;
  }

  lemma AllMoved(was: Files, now: Files, keep: nat)
    requires PartShifted(was, now, keep, -1)
    ensures now == Shifted(was, keep)
  {
    var shifted := Shifted(was, keep);
    forall j: nat ensures (j in now <==> j in shifted) && (j in now ==> now[j] == shifted[j]) {
      assert j in now <==> 1 <= j <= keep && HasNewer(was, j);
    }
    assert now.Keys == shifted.Keys;
  }

  class AuditLog {
    var files: Files
    const rotateBytes: int
    const keep: nat

    constructor (rotateBytes: int, keep: nat)
      ensures files == map[] && this.rotateBytes == rotateBytes && this.keep == keep
    {
      files := map[];
      this.rotateBytes, this.keep := rotateBytes, keep;
    }

    /** No file beyond the last archive; there is at least one archive. */
    ghost predicate Valid()
      reads this
    {
      keep >= 1 && forall i :: i in files ==> i <= keep
    }

    /** The oldest archive is deleted, the others move up one by one, and the
        current file becomes the first archive. When there is no current file
        the last move fails, after the others were made. */
    method Rotate()
      requires Valid()
      modifies this
      ensures Valid() && files == Shifted(old(files), keep)
    {
      files := files - {keep};
      var i := keep - 1;
      while i > 0
        invariant 0 <= i < keep
        invariant PartShifted(old(files), files, keep, i)
      {
        MoveOne(old(files), files, keep, i);
        files := Moved(files, i);
        i := i - 1;
      }
      MoveOne(old(files), files, keep, 0);
      files := Moved(files, 0);
      AllMoved(old(files), files, keep);
    }

    method Append(line: string)
      requires Valid()
      modifies this
      ensures Valid() && files == Appended(old(files), line, rotateBytes, keep)
    {
      var size := if 0 in files then Size(files[0]) else 0;
      if size + |line| + 1 > rotateBytes {
        Rotate();
      }
      files := files[0 := File(files, 0) + [line]];
    }

    /** The entries of a user that hold a text, newest first, until there are enough. */
    method Recent(limit: int, parse: Parser, user: Option<Name>, holds: Entry -> bool) returns (answer: Answer)
      ensures answer == Searched(files, keep, limit, parse, user, holds)
    {
      answer := Search(files, keep, limit, parse, user, holds);
    }
  }

  // ---- what rotation keeps ----

  predicate EndOf(a: Lines, b: Lines) {
    |a| <= |b| && a == b[|b| - |a|..]
  }

  lemma {:induction false} ContentShifted(files: Files, keep: nat, k: nat)
    requires k <= keep
    ensures Content(Shifted(files, keep), k) == if k == 0 then [] else Content(files, k - 1)
  {
    if k > 0 {
      ContentShifted(files, keep, k - 1);
      assert File(Shifted(files, keep), k) == File(files, k - 1);
      assert File(files, 0) + [] == File(files, 0);
    }
  }

  lemma {:induction false} ContentAppend(files: Files, line: string, k: nat)
    ensures Content(files[0 := File(files, 0) + [line]], k) == Content(files, k) + [line]
  {
    if k > 0 {
      ContentAppend(files, line, k - 1);
      var more := files[0 := File(files, 0) + [line]];
      assert File(files, k) + (Content(files, k - 1) + [line]) == (File(files, k) + Content(files, k - 1)) + [line];
    }
  }

  /** One append adds its line at the end and loses exactly the oldest archive,
      and that only when the current file was full. */
  lemma AppendKeepsTheRest(files: Files, line: string, rotateBytes: int, keep: nat)
    requires keep >= 1
    ensures
      var lost := if Size(File(files, 0)) + |line| + 1 > rotateBytes then File(files, keep) else [];
      lost + Content(Appended(files, line, rotateBytes, keep), keep) == Content(files, keep) + [line]
  {
    var full := Full(files, line, rotateBytes);
    var f := if full then Shifted(files, keep) else files;
    ContentAppend(f, line, keep);
    if full {
      ContentShifted(files, keep, keep);
      assert File(files, keep) + (Content(files, keep - 1) + [line]) == (File(files, keep) + Content(files, keep - 1)) + [line];
    }
  }

  /** What a character weighs in the file, by its code point. */
  lemma WeightsAre(c: char)
    ensures Bytes([c]) == if c as int <= 0x7F then 1 else if c as int <= 0x7FF then 2 else if c as int <= 0xFFFF then 3 else 4
  {
    assert [c][1..] == "" && Bytes("") == 0;
  }

  lemma {:induction false} WeightsAdd(a: string, b: string)
    ensures Bytes(a + b) == Bytes(a) + Bytes(b)
  {
    if a == "" {
      assert a + b == b;
    } else {
      assert (a + b)[1..] == a[1..] + b;
      WeightsAdd(a[1..], b);
    }
  }

  /** A run of appends. */
  function After(files: Files, history: Lines, rotateBytes: int, keep: nat): Files
    decreases |history|
  {
    if history == [] then files
    else Appended(After(files, history[..|history| - 1], rotateBytes, keep), history[|history| - 1], rotateBytes, keep)
  }

  lemma EndGrows(lost: Lines, a: Lines, c: Lines, b: Lines, line: string)
    requires lost + a == c + [line] && EndOf(c, b)
    ensures EndOf(a, b + [line])
  {
    var all := b + [line];
    assert c + [line] == all[|all| - |c| - 1..];
    assert a == (c + [line])[|lost|..];
  }

  lemma AppendGrows(files: Files, base: Lines, line: string, rotateBytes: int, keep: nat)
    requires keep >= 1 && EndOf(Content(files, keep), base)
    ensures EndOf(Content(Appended(files, line, rotateBytes, keep), keep), base + [line])
  {
    AppendKeepsTheRest(files, line, rotateBytes, keep);
    var lost := if Full(files, line, rotateBytes) then File(files, keep) else [];
    EndGrows(lost, Content(Appended(files, line, rotateBytes, keep), keep), Content(files, keep), base, line);
  }

  /** Over any number of rotations the files hold an unbroken end of the history. */
  lemma {:induction false} FilesAreTheNewest(files: Files, history: Lines, rotateBytes: int, keep: nat)
    requires keep >= 1
    ensures EndOf(Content(After(files, history, rotateBytes, keep), keep), Content(files, keep) + history)
    decreases |history|
  {
    if history == [] {
      assert Content(files, keep) + history == Content(files, keep);
    } else {
      var n := |history| - 1;
      FilesAreTheNewest(files, history[..n], rotateBytes, keep);
      AppendGrows(After(files, history[..n], rotateBytes, keep), Content(files, keep) + history[..n],
                  history[n], rotateBytes, keep);
      assert Content(files, keep) + history == (Content(files, keep) + history[..n]) + [history[n]];
    }
  }

  /** There are never more than the current file and `keep` archives, and the
      newest line is always in the current one. */
  lemma {:induction false} FilesAreFew(files: Files, history: Lines, rotateBytes: int, keep: nat)
    requires keep >= 1 && forall i :: i in files ==> i <= keep
    ensures forall i :: i in After(files, history, rotateBytes, keep) ==> i <= keep
    ensures history != [] ==>
              var now := File(After(files, history, rotateBytes, keep), 0);
              now != [] && now[|now| - 1] == history[|history| - 1]
    decreases |history|
  {
    if history != [] {
      FilesAreFew(files, history[..|history| - 1], rotateBytes, keep);
    }
  }

  /** A current file outgrows the limit only by what characters weigh more than
      a byte, or with a single line. */
  lemma CurrentFits(files: Files, line: string, rotateBytes: int, keep: nat)
    ensures
      var now := File(Appended(files, line, rotateBytes, keep), 0);
      Size(now) <= rotateBytes + Bytes(line) - |line| || now == [line]
  {
    if !Full(files, line, rotateBytes) {
      SizeAppend(File(files, 0), line);
    }
  }

  lemma {:induction false} SizeAppend(lines: Lines, line: string)
    ensures Size(lines + [line]) == Size(lines) + Bytes(line) + 1
  {
    if lines == [] {
      assert lines + [line] == [line] && [line][1..] == [];
    } else {
      assert (lines + [line])[0] == lines[0] && (lines + [line])[1..] == lines[1..] + [line];
      SizeAppend(lines[1..], line);
    }
  }

  // ---- what is read back ----

  /** What a written line is read back as. */
  function PiecesOf(line: string): Lines {
    Split(line + "\n", "")
  }

  function Pieces(lines: Lines): Lines {
    if lines == [] then [] else PiecesOf(lines[0]) + Pieces(lines[1..])
  }

  lemma {:induction false} SplitLine(line: string, rest: string, begun: string)
    ensures Split(line + "\n" + rest, begun) == Split(line + "\n", begun) + Split(rest, "")
    decreases |line|
  {
    var text, own := line + "\n" + rest, line + "\n";
    if line == "" {
      assert text[0] == '\n' && text[1..] == rest && own[1..] == "";
    } else if IsBreak(line[0]) {
      var n := BreakLength(own);
      assert text[0] == line[0] && text[1] == own[1] && BreakLength(text) == n;
      if n == 2 && |line| == 1 {
        assert text[2..] == rest && own[2..] == "";
      } else {
        assert text[n..] == line[n..] + "\n" + rest && own[n..] == line[n..] + "\n";
        SplitLine(line[n..], rest, "");
      }
    } else {
      assert text[0] == line[0] && text[1..] == line[1..] + "\n" + rest && own[1..] == line[1..] + "\n";
      SplitLine(line[1..], rest, begun + [line[0]]);
    }
  }

  lemma {:induction false} PlainPiece(line: string, begun: string)
    requires Plain(line)
    ensures Split(line + "\n", begun) == [begun + line]
    decreases |line|
  {
    var own := line + "\n";
    if line == "" {
      assert own[1..] == "" && begun + line == begun;
    } else {
      assert own[1..] == line[1..] + "\n";
      PlainPiece(line[1..], begun + [line[0]]);
      assert (begun + [line[0]]) + line[1..] == begun + line;
    }
  }

  /** Where a text comes apart: at ten characters, by their code points; a carriage return
      with the line feed after it is one break. */
  lemma BreaksAre(c: char)
    ensures IsBreak(c) <==> c as int in {0x0A, 0x0B, 0x0C, 0x0D, 0x1C, 0x1D, 0x1E, 0x85, 0x2028, 0x2029}
  {
  }

  lemma TwoAreOneBreak(rest: string)
    ensures Split("\r\n" + rest, "") == [""] + Split(rest, "")
    ensures Split("\n" + rest, "") == [""] + Split(rest, "")
  {
    assert ("\r\n" + rest)[2..] == rest && ("\n" + rest)[1..] == rest;
  }

  function Characters(lines: Lines): nat {
    if lines == [] then 0 else |lines[0]| + Characters(lines[1..])
  }

  lemma {:induction false} CharactersAdd(a: Lines, b: Lines)
    ensures Characters(a + b) == Characters(a) + Characters(b)
  {
    if a == [] {
      assert a + b == b;
    } else {
      assert (a + b)[1..] == a[1..] + b;
      CharactersAdd(a[1..], b);
    }
  }

  /** The breaks of a line are not read back, everything else of it is at most. */
  lemma {:induction false} BreaksGo(line: string, begun: string)
    ensures Characters(Split(line + "\n", begun)) <= |begun| + |line|
    ensures !Plain(line) ==> Characters(Split(line + "\n", begun)) < |begun| + |line|
    decreases |line|
  {
    var own := line + "\n";
    if line == "" {
      assert own[1..] == "" && [begun][1..] == [];
    } else if IsBreak(line[0]) {
      var n := BreakLength(own);
      CharactersAdd([begun], Split(own[n..], ""));
      assert [begun][1..] == [];
      if n == 2 && |line| == 1 {
        assert own[2..] == "";
      } else {
        assert own[n..] == line[n..] + "\n";
        BreaksGo(line[n..], "");
      }
    } else {
      assert own[1..] == line[1..] + "\n";
      BreaksGo(line[1..], begun + [line[0]]);
      assert Plain(line[1..]) ==> Plain(line);
    }
  }

  lemma {:induction false} TextSplits(lines: Lines)
    ensures Split(Text(lines), "") == Pieces(lines)
  {
    if lines != [] {
      SplitLine(lines[0], Text(lines[1..]), "");
      TextSplits(lines[1..]);
    }
  }

  lemma {:induction false} PiecesAppend(a: Lines, b: Lines)
    ensures Pieces(a + b) == Pieces(a) + Pieces(b)
  {
    if a == [] {
      assert a + b == b;
    } else {
      assert (a + b)[0] == a[0] && (a + b)[1..] == a[1..] + b;
      PiecesAppend(a[1..], b);
    }
  }

  lemma {:induction false} ReadAsPieces(files: Files, k: nat)
    ensures Readable(files, k) == Pieces(Content(files, k))
  {
    TextSplits(File(files, k));
    if k > 0 {
      ReadAsPieces(files, k - 1);
      PiecesAppend(File(files, k), Content(files, k - 1));
    }
  }

  lemma {:induction false} PiecesAreTheLines(lines: Lines)
    ensures Characters(Pieces(lines)) <= Characters(lines)
    ensures (forall l :: l in lines ==> Plain(l)) ==> Pieces(lines) == lines
    ensures (exists l :: l in lines && !Plain(l)) ==> Characters(Pieces(lines)) < Characters(lines)
  {
    if lines != [] {
      var first, rest := lines[0], lines[1..];
      assert lines == [first] + rest;
      PiecesAreTheLines(rest);
      CharactersAdd(PiecesOf(first), Pieces(rest));
      BreaksGo(first, "");
      if Plain(first) {
        PlainPiece(first, "");
        assert "" + first == first;
      }
    }
  }

  /** Lines are read back as they were written exactly when none of them holds
      a break. */
  lemma ReadBackIsExact(files: Files, k: nat)
    ensures Readable(files, k) == Content(files, k) <==> forall l :: l in Content(files, k) ==> Plain(l)
  {
    ReadAsPieces(files, k);
    PiecesAreTheLines(Content(files, k));
  }

  /** When the files hold an end of the history, what is read back is the newest
      matching entries of that end, as long as no line still held has a break. */
  lemma RecentIsTheNewest(files: Files, history: Lines, keep: nat, parse: Parser, wanted: Entry -> bool)
    requires EndOf(Content(files, keep), history) && forall l :: l in Content(files, keep) ==> Plain(l)
    ensures Newest(Readable(files, keep), parse, wanted) == Newest(Content(files, keep), parse, wanted)
    ensures Newest(Readable(files, keep), parse, wanted) <= Newest(history, parse, wanted)
  {
    var c := Content(files, keep);
    assert history == history[..|history| - |c|] + c;
    NewestAppend(history[..|history| - |c|], c, parse, wanted);
    ReadBackIsExact(files, keep);
  }

  /** Which is so after any run that began with no files. */
  lemma RunHoldsTheEnd(history: Lines, rotateBytes: int, keep: nat)
    requires keep >= 1
    ensures EndOf(Content(After(map[], history, rotateBytes, keep), keep), history)
  {
    FilesAreTheNewest(map[], history, rotateBytes, keep);
    EmptyContent(keep);
    assert [] + history == history;
  }

  lemma {:induction false} EmptyContent(k: nat)
    ensures Content(map[], k) == []
  {
    if k > 0 {
      EmptyContent(k - 1);
    }
  }

  // ---- what is not read back ----

  /** No piece of a line that comes apart is an entry by itself. */
  ghost predicate PiecesAreNoEntries(lines: Lines, parse: Parser) {
    forall l, p :: l in lines && !Plain(l) && p in PiecesOf(l) ==> parse(p).None?
  }

  predicate Wanted(line: string, parse: Parser, wanted: Entry -> bool) {
    parse(line).Some? && wanted(parse(line).value)
  }

  function PlainOnes(lines: Lines): Lines {
    if lines == [] then []
    else (if Plain(lines[0]) then [lines[0]] else []) + PlainOnes(lines[1..])
  }

  lemma {:induction false} NoEntries(lines: Lines, parse: Parser, wanted: Entry -> bool)
    requires forall l :: l in lines ==> parse(l).None?
    ensures Newest(lines, parse, wanted) == []
    decreases |lines|
  {
    if lines != [] {
      assert lines[|lines| - 1] in lines;
      NoEntries(lines[..|lines| - 1], parse, wanted);
    }
  }

  lemma NewestOne(line: string, parse: Parser, wanted: Entry -> bool)
    ensures Newest([line], parse, wanted) == if Wanted(line, parse, wanted) then [parse(line).value] else []
  {
    assert [line][..0] == [] && Newest([], parse, wanted) == [];
  }

  lemma {:induction false} NewestOfPieces(lines: Lines, parse: Parser, wanted: Entry -> bool)
    requires PiecesAreNoEntries(lines, parse)
    ensures Newest(Pieces(lines), parse, wanted) == Newest(PlainOnes(lines), parse, wanted)
  {
    if lines != [] {
      var first, rest := lines[0], lines[1..];
      assert lines == [first] + rest;
      NewestOfPieces(rest, parse, wanted);
      NewestAppend(PiecesOf(first), Pieces(rest), parse, wanted);
      if Plain(first) {
        PlainPiece(first, "");
        assert "" + first == first;
        NewestAppend([first], PlainOnes(rest), parse, wanted);
      } else {
        NoEntries(PiecesOf(first), parse, wanted);
        assert PlainOnes(lines) == [] + PlainOnes(rest) == PlainOnes(rest);
      }
    }
  }

  lemma {:induction false} PlainOnesLose(lines: Lines, parse: Parser, wanted: Entry -> bool)
    ensures |Newest(PlainOnes(lines), parse, wanted)| <= |Newest(lines, parse, wanted)|
    ensures Newest(PlainOnes(lines), parse, wanted) == Newest(lines, parse, wanted) <==>
            forall l :: l in lines && Wanted(l, parse, wanted) ==> Plain(l)
    ensures (exists l :: l in lines && Wanted(l, parse, wanted) && !Plain(l)) ==>
              |Newest(PlainOnes(lines), parse, wanted)| < |Newest(lines, parse, wanted)|
  {
    if lines != [] {
      var first, rest := lines[0], lines[1..];
      assert lines == [first] + rest;
      PlainOnesLose(rest, parse, wanted);
      NewestAppend([first], rest, parse, wanted);
      NewestOne(first, parse, wanted);
      if Plain(first) {
        NewestAppend([first], PlainOnes(rest), parse, wanted);
      } else {
        assert PlainOnes(lines) == [] + PlainOnes(rest) == PlainOnes(rest);
      }
    }
  }

  /** When no piece of a broken line is an entry by itself, exactly the entries
      whose lines hold no break are read back; and none is missed exactly when
      no entry looked for has a line with a break in it. */
  lemma BrokenLinesAreMissed(files: Files, k: nat, parse: Parser, wanted: Entry -> bool)
    requires PiecesAreNoEntries(Content(files, k), parse)
    ensures Newest(Readable(files, k), parse, wanted) == Newest(PlainOnes(Content(files, k)), parse, wanted)
    ensures Newest(Readable(files, k), parse, wanted) == Newest(Content(files, k), parse, wanted) <==>
            forall l :: l in Content(files, k) && Wanted(l, parse, wanted) ==> Plain(l)
  {
    ReadAsPieces(files, k);
    NewestOfPieces(Content(files, k), parse, wanted);
    PlainOnesLose(Content(files, k), parse, wanted);
  }

  const STAMP: string := "{\"ts\": 1.0, \"user\": \"-\", "
  const DEED: string := "\"ip\": \"-\", \"action\": \"PUT\", "
  const AIM: string := "\"target\": \"a"
  const BEFORE: string := STAMP + DEED + AIM
  const AFTER: string := "b\", \"status\": \"ok\"}"

  /** The line of an entry whose target is `a`, a line separator, `b`. */
  const SEPARATED: string := BEFORE + "\U{2028}" + AFTER

  lemma TwoPieces(a: string, b: string)
    requires Plain(a) && Plain(b)
    ensures PiecesOf(a + "\U{2028}" + b) == [a, b]
    ensures !Plain(a + "\U{2028}" + b)
  {
    var text := a + "\U{2028}" + b;
    assert text[|a|] == '\U{2028}';
    BreakEnds(a, b, "");
    PlainPiece(b, "");
    assert "" + a == a && "" + b == b;
  }

  lemma {:induction false} BreakEnds(a: string, b: string, begun: string)
    requires Plain(a)
    ensures Split(a + "\U{2028}" + b + "\n", begun) == [begun + a] + Split(b + "\n", "")
    decreases |a|
  {
    var text := a + "\U{2028}" + b + "\n";
    if a == "" {
      assert text[0] == '\U{2028}' && text[1..] == b + "\n" && begun + a == begun;
    } else {
      assert text[0] == a[0] && text[1..] == a[1..] + "\U{2028}" + b + "\n";
      BreakEnds(a[1..], b, begun + [a[0]]);
      assert (begun + [a[0]]) + a[1..] == begun + a;
    }
  }

  lemma StampIsPlain()
    ensures Plain(STAMP)
  {
  }

  lemma DeedIsPlain()
    ensures Plain(DEED)
  {
  }

  lemma RestIsPlain()
    ensures Plain(AIM) && Plain(AFTER)
  {
  }

  lemma PlainTogether(a: string, b: string)
    requires Plain(a) && Plain(b)
    ensures Plain(a + b)
  {
  }

  lemma EndsArePlain()
    ensures Plain(BEFORE) && Plain(AFTER)
  {
    StampIsPlain();
    DeedIsPlain();
    RestIsPlain();
    PlainTogether(STAMP, DEED);
    PlainTogether(STAMP + DEED, AIM);
  }

  /** The entry of that line is appended and not read back: neither half is JSON. */
  lemma SeparatorHidesAnEntry(parse: Parser, wanted: Entry -> bool)
    requires Wanted(SEPARATED, parse, wanted) && parse(BEFORE).None? && parse(AFTER).None?
    ensures
      var files := After(map[], [SEPARATED], 0x10_0000, 4);
      && Newest(Content(files, 4), parse, wanted) == [parse(SEPARATED).value]
      && Newest(Readable(files, 4), parse, wanted) == []
  {
    EndsArePlain();
    TwoPieces(BEFORE, AFTER);
    MissedAlone(SEPARATED, 0x10_0000, 4, parse, wanted);
  }

  /** The line of an entry whose target holds a text between two line separators. */
  function Enclosing(piece: string): string {
    BEFORE + "\U{2028}" + (piece + "\U{2028}" + AFTER)
  }

  lemma ThreePieces(a: string, b: string, c: string)
    requires Plain(a) && Plain(b) && Plain(c)
    ensures PiecesOf(a + "\U{2028}" + (b + "\U{2028}" + c)) == [a, b, c]
  {
    var rest := b + "\U{2028}" + c;
    BreakEnds(a, rest, "");
    TwoPieces(b, c);
    assert "" + a == a;
  }

  /** A text between two separators that is JSON by itself is read back as an entry,
      the only one, though it was never appended: `{}` answers an entry of nobody,
      and `5` breaks off a search by user. */
  lemma EnclosedIsReadBack(piece: string, parse: Parser, user: Option<Name>, holds: Entry -> bool)
    requires Plain(piece) && Wanted(piece, parse, Stops(user, holds)) && |piece| <= 200
    requires parse(BEFORE).None? && parse(AFTER).None?
    ensures
      var files := After(map[], [Enclosing(piece)], 0x10_0000, 4);
      var found := Newest(Readable(files, 4), parse, Stops(user, holds));
      && Content(files, 4) == [Enclosing(piece)]
      && found == [parse(piece).value]
      && AnswerOf(found, user) == if user.Some? && !parse(piece).value.isObject then Broke else Entries(found)
  {
    var wanted := Stops(user, holds);
    EndsArePlain();
    ThreePieces(BEFORE, piece, AFTER);
    AppendedAlone(Enclosing(piece), 0x10_0000, 4);
    ReadAsPieces(After(map[], [Enclosing(piece)], 0x10_0000, 4), 4);
    OnePieces(Enclosing(piece));
    MiddleOnly(BEFORE, piece, AFTER, parse, wanted);
    assert [parse(piece).value][0] == parse(piece).value;
  }

  lemma OnePieces(line: string)
    ensures Pieces([line]) == PiecesOf(line)
  {
    assert [line][1..] == [] && PiecesOf(line) + [] == PiecesOf(line);
  }

  lemma MiddleOnly(a: string, b: string, c: string, parse: Parser, wanted: Entry -> bool)
    requires parse(a).None? && Wanted(b, parse, wanted) && parse(c).None?
    ensures Newest([a, b, c], parse, wanted) == [parse(b).value]
  {
    assert [a, b, c] == [a] + ([b] + [c]);
    NewestAppend([a], [b] + [c], parse, wanted);
    NewestAppend([b], [c], parse, wanted);
    NewestOne(a, parse, wanted);
    NewestOne(b, parse, wanted);
    NewestOne(c, parse, wanted);
  }

  lemma AppendedAlone(line: string, rotateBytes: int, keep: nat)
    requires |line| < rotateBytes
    ensures var none: Files := map[];
            After(none, [line], rotateBytes, keep) == none[0 := File(none, 0) + [line]]
    ensures Content(After(map[], [line], rotateBytes, keep), keep) == [line]
  {
    var none: Files := map[];
    assert [line][..0] == [] && After(none, [], rotateBytes, keep) == none;
    assert !Full(none, line, rotateBytes);
    ContentAppend(none, line, keep);
    EmptyContent(keep);
    assert [] + [line] == [line];
  }

  lemma MissedAlone(line: string, rotateBytes: int, keep: nat, parse: Parser, wanted: Entry -> bool)
    requires |line| < rotateBytes && Wanted(line, parse, wanted)
    requires !Plain(line) && PiecesAreNoEntries([line], parse)
    ensures
      var files := After(map[], [line], rotateBytes, keep);
      && Newest(Content(files, keep), parse, wanted) == [parse(line).value]
      && Newest(Readable(files, keep), parse, wanted) == []
  {
    AppendedAlone(line, rotateBytes, keep);
    NewestOne(line, parse, wanted);
    BrokenLinesAreMissed(After(map[], [line], rotateBytes, keep), keep, parse, wanted);
    assert PlainOnes([line]) == [] + PlainOnes([line][1..]) == [];
  }
}
