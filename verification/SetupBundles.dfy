/**
 * Saving and loading a bundle of text files over the content pool (packages/data-store/src/guard-store.ts:
 * `packFiles`, `forEachBody`, `saveGuardSetupBundle`, `loadGuardSetupBundle`; content-store.ts: `put`, `getMany`,
 * `gc`).
 *
 * Proved: while a manifest's bodies are stored, loading gives every file back with only lone surrogates replaced,
 * and gives back the very files exactly when every text is well-formed and none is called `__proto__`.
 */
module SetupBundles {
  import opened Common
  import opened ContentPool
  import opened Unicode

  // --- Paths and objects --------------------------------------------------------------

  const PROTO := "__proto__"

  /** `object[key] = value` on a plain object: the one key that does not become a property of its own. */
  function Assign<T>(plain: map<string, T>, key: string, value: T): map<string, T> {
    if key == PROTO then plain else plain[key := value]
  }

  function Slashes(rel: string): string {
    seq(|rel|, i requires 0 <= i < |rel| => if rel[i] == '\\' then '/' else rel[i])
  }

  function Segments(path: string): seq<string> {
    if path == "" then [""]
    else
      var front, last := Segments(path[..|path| - 1]), path[|path| - 1];
      if last == '/' then front + [""] else front[..|front| - 1] + [front[|front| - 1] + [last]]
  }

  predicate Letter(c: char) { 'a' <= c <= 'z' || 'A' <= c <= 'Z' }

  /** An absolute path, or one on a drive. */
  predicate Rooted(norm: string) {
    norm != "" && (norm[0] == '/' || (|norm| > 1 && Letter(norm[0]) && norm[1] == ':'))
  }

  /** `assertSafeRel` lets the path through. */
  predicate SafeRel(rel: string) {
    var norm := Slashes(rel);
    && rel != "" && '\0' !in rel && !Rooted(norm)
    && forall i | 0 <= i < |Segments(norm)| ::
        Segments(norm)[i] != "" && Segments(norm)[i] != "." && Segments(norm)[i] != ".."
  }

  // --- Where an accepted path leads --------------------------------------------------------------

  function Rejoined(names: seq<string>): string {
    if names == [] then ""
    else if |names| == 1 then names[0] else Rejoined(names[..|names| - 1]) + "/" + names[|names| - 1]
  }

  lemma {:induction false} SegmentsRejoin(path: string)
    ensures Segments(path) != [] && Rejoined(Segments(path)) == path
    ensures forall i | 0 <= i < |Segments(path)| :: '/' !in Segments(path)[i]
  {
    if path != "" {
      var front, last := Segments(path[..|path| - 1]), path[|path| - 1];
      SegmentsRejoin(path[..|path| - 1]);
      assert path == path[..|path| - 1] + [last];
      if last == '/' {
        assert (front + [""])[..|front|] == front;
      } else {
        var longer := front[..|front| - 1] + [front[|front| - 1] + [last]];
        assert longer[..|front| - 1] == front[..|front| - 1];
        assert Segments(path) == longer;
      }
    }
  }

  /**
   * The directory a relative path leads to from `base`, as `path.resolve` walks it: `..` goes up, at the root nowhere.
   */
  function Resolved(base: seq<string>, names: seq<string>): seq<string> {
    if names == [] then base
    else
      var at := Resolved(base, names[..|names| - 1]);
      match names[|names| - 1]
      case "" => at
      case "." => at
      case ".." => if at == [] then [] else at[..|at| - 1]
      case name => at + [name]
  }

  predicate IsName(name: string) { name != "" && name != "." && name != ".." }

  lemma {:induction false} NamesResolve(base: seq<string>, names: seq<string>)
    ensures |Resolved(base, names)| <= |base| + |names|
    ensures Resolved(base, names) == base + names <==> forall i | 0 <= i < |names| :: IsName(names[i])
    ensures |Resolved(base, names)| == |base| + |names| ==> Resolved(base, names) == base + names
  {
    if names != [] {
      var front, last := names[..|names| - 1], names[|names| - 1];
      NamesResolve(base, front);
      assert names == front + [last];
      assert base + names == base + front + [last];
      assert forall i | 0 <= i < |front| :: names[i] == front[i];
    }
  }

  /** A Windows drive's path: a letter and a colon. */
  predicate OnDrive(rel: string) {
    |rel| > 1 && rel[1] == ':' && (rel[0] in "abcdefghijklmnopqrstuvwxyz" || rel[0] in "ABCDEFGHIJKLMNOPQRSTUVWXYZ")
  }

  lemma LettersAre(c: char)
    ensures Letter(c) <==> c in "abcdefghijklmnopqrstuvwxyz" || c in "ABCDEFGHIJKLMNOPQRSTUVWXYZ"
  {
    var small, big := "abcdefghijklmnopqrstuvwxyz", "ABCDEFGHIJKLMNOPQRSTUVWXYZ";
    assert forall i | 0 <= i < 26 :: small[i] as int == 'a' as int + i;
    assert forall i | 0 <= i < 26 :: big[i] as int == 'A' as int + i;
    if 'a' <= c <= 'z' { assert small[c as int - 'a' as int] == c; }
    if 'A' <= c <= 'Z' { assert big[c as int - 'A' as int] == c; }
  }

  /** A leading slash makes an empty first part, which is no name. */
  lemma {:induction false} SlashGoesNowhere(path: string)
    requires path != "" && path[0] == '/'
    ensures |Segments(path)| > 1 && Segments(path)[0] == ""
  {
    if |path| > 1 { SlashGoesNowhere(path[..|path| - 1]); }
    else { assert path[..0] == ""; }
  }

  /**
   * A path is accepted exactly when it is relative and leads, from any directory, to a place below it: the one its own
   * parts name, whichever slash they are written with.
   */
  lemma AcceptedStaysBelow(rel: string, base: seq<string>)
    ensures |Slashes(rel)| == |rel|
    ensures forall i | 0 <= i < |rel| :: Slashes(rel)[i] == if rel[i] == '\\' then '/' else rel[i]
    ensures var names := Segments(Slashes(rel));
            && names != [] && Rejoined(names) == Slashes(rel) && (forall i | 0 <= i < |names| :: '/' !in names[i])
            && (SafeRel(rel) <==>
                 && rel != "" && '\0' !in rel && !OnDrive(rel)
                 && Resolved(base, names) == base + names)
  {
    SegmentsRejoin(Slashes(rel));
    if rel != "" {
      LettersAre(rel[0]);
      LettersAre(Slashes(rel)[0]);
      if Slashes(rel)[0] == '/' { SlashGoesNowhere(Slashes(rel)); }
    }
    NamesResolve(base, Segments(Slashes(rel)));
    assert forall i | 0 <= i < |Segments(Slashes(rel))| :: IsName(Segments(Slashes(rel))[i]) <==>
        Segments(Slashes(rel))[i] != "" && Segments(Slashes(rel))[i] != "." && Segments(Slashes(rel))[i] != "..";
  }

  datatype File = File(rel: string, text: Text)

  /** An object has each key once. */
  ghost predicate DistinctRels(files: seq<File>) { forall i, j | 0 <= i < j < |files| :: files[i].rel != files[j].rel }

  function TextOf(files: seq<File>, rel: string): Text
    requires exists i :: 0 <= i < |files| && files[i].rel == rel
  {
    if files[0].rel == rel then files[0].text else TextOf(files[1..], rel)
  }

  function ShaOf(text: Text): Sha { Sha256(Encode(text)) }

  // --- What a save leaves ------------------------------------------------------------------

  /** The manifest of some files, as the packing loop assigns it. */
  function ManifestOf(files: seq<File>): map<string, Sha> {
    if files == [] then map[]
    else Assign(ManifestOf(files[..|files| - 1]), files[|files| - 1].rel, ShaOf(files[|files| - 1].text))
  }

  /** The bodies a save puts, each under its hash once. */
  function BodiesOf(files: seq<File>): map<Sha, Text> {
    if files == [] then map[]
    else
      var last := files[|files| - 1];
      if last.rel == PROTO then BodiesOf(files[..|files| - 1])
      else BodiesOf(files[..|files| - 1])[ShaOf(last.text) := Decode(Encode(last.text))]
  }

  /** The table after every one of some bodies was put, in any order, each at its own moment. */
  function PutAll(rows: Rows, scope: string, bodies: map<Sha, Text>, at: Sha -> int): Rows {
    map key | key in rows.Keys + (set sha | sha in bodies :: Key(scope, sha)) ::
      if key.scope == scope && key.sha in bodies then PutRow(rows, key, bodies[key.sha], at(key.sha))[key]
      else rows[key]
  }

  /** Every body in a scope is what its hash was taken of, read back as text. */
  ghost predicate Faithful(rows: Rows, scope: string) {
    forall key | key in rows && key.scope == scope :: rows[key].body == Decode(key.sha.bytes)
  }

  datatype SaveResult = Saved(manifest: map<string, Sha>) | UnsafePath(rel: string)
  datatype LoadResult = Loaded(files: map<string, Text>) | UnsafeStored(rel: string)
      | MissingObject(rel: string, sha: Sha)

  // --- Reading back ---------------------------------------------------------------------------

  datatype Named = Named(name: string, sha: Sha)
  datatype Handed = Handed(name: string, body: Text)

  predicate Stores(rows: Rows, scope: string, sha: Sha) { Key(scope, sha) in rows }

  /** What is handed over for some entries: each whose body is stored and among `shas`. */
  function Handovers(rows: Rows, scope: string, entries: seq<Named>, shas: set<Sha>): seq<Handed> {
    if entries == [] then []
    else
      var last := entries[|entries| - 1];
      Handovers(rows, scope, entries[..|entries| - 1], shas)
      + (if last.sha in shas && Stores(rows, scope, last.sha) then [Handed(last.name, rows[Key(scope, last.sha)].body)]
         else [])
  }

  function NamesOf(entries: seq<Named>, sha: Sha): seq<string> {
    if entries == [] then []
    else
      NamesOf(entries[..|entries| - 1], sha)
      + (if entries[|entries| - 1].sha == sha then [entries[|entries| - 1].name] else [])
  }

  function ShasOf(entries: seq<Named>): set<Sha> { set e | e in entries :: e.sha }

  function HandAll(names: seq<string>, body: Text): seq<Handed> {
    seq(|names|, i requires 0 <= i < |names| => Handed(names[i], body))
  }

  lemma HandOneMore(names: seq<string>, name: string, body: Text)
    ensures HandAll(names + [name], body) == HandAll(names, body) + [Handed(name, body)]
  {
  }

  lemma AddToBoth(a: seq<Handed>, b: seq<Handed>, extra: multiset<Handed>, h: Handed)
    requires multiset(b) == multiset(a) + extra
    ensures multiset(b + [h]) == multiset(a + [h]) + extra
  {
  }

  lemma AddToSecond(a: seq<Handed>, b: seq<Handed>, extra: seq<Handed>, h: Handed)
    requires multiset(b) == multiset(a) + multiset(extra)
    ensures multiset(b + [h]) == multiset(a) + multiset(extra + [h])
  {
  }

  function LastHandover(rows: Rows, scope: string, last: Named, shas: set<Sha>): seq<Handed> {
    if last.sha in shas && Stores(rows, scope, last.sha) then [Handed(last.name, rows[Key(scope, last.sha)].body)]
    else []
  }

  /** One more hash handed over under all its names. */
  lemma {:induction false} OneMoreSha(rows: Rows, scope: string, entries: seq<Named>, done: set<Sha>, sha: Sha)
    requires sha !in done && Stores(rows, scope, sha)
    ensures multiset(Handovers(rows, scope, entries, done + {sha})) ==
            multiset(Handovers(rows, scope, entries, done))
            + multiset(HandAll(NamesOf(entries, sha), rows[Key(scope, sha)].body))
  {
    if entries != [] {
      var front, last, body := entries[..|entries| - 1], entries[|entries| - 1], rows[Key(scope, sha)].body;
      OneMoreSha(rows, scope, front, done, sha);
      var less, more := Handovers(rows, scope, front, done), Handovers(rows, scope, front, done + {sha});
      assert Handovers(rows, scope, entries, done) == less + LastHandover(rows, scope, last, done);
      assert Handovers(rows, scope, entries, done + {sha}) == more + LastHandover(rows, scope, last, done + {sha});
      if last.sha == sha {
        HandOneMore(NamesOf(front, sha), last.name, body);
        assert less + [] == less;
        AddToSecond(less, more, HandAll(NamesOf(front, sha), body), Handed(last.name, body));
      } else {
        assert NamesOf(entries, sha) == NamesOf(front, sha);
        assert LastHandover(rows, scope, last, done + {sha}) == LastHandover(rows, scope, last, done);
        if LastHandover(rows, scope, last, done) != [] {
          AddToBoth(less, more, multiset(HandAll(NamesOf(front, sha), body)), LastHandover(rows, scope, last, done)[0]);
        } else {
          assert less + [] == less && more + [] == more;
        }
      }
    }
  }

  lemma {:induction false} NothingHanded(rows: Rows, scope: string, entries: seq<Named>)
    ensures Handovers(rows, scope, entries, {}) == []
  {
    if entries != [] { NothingHanded(rows, scope, entries[..|entries| - 1]); }
  }

  lemma {:induction false} HandoversNarrow(rows: Rows, scope: string, entries: seq<Named>, shas: set<Sha>,
                                           stored: set<Sha>)
    requires forall e | e in entries :: e.sha in shas && (Stores(rows, scope, e.sha) <==> e.sha in stored)
    ensures Handovers(rows, scope, entries, shas) == Handovers(rows, scope, entries, stored)
  {
    if entries != [] {
      var front, last := entries[..|entries| - 1], entries[|entries| - 1];
      assert forall e | e in front :: e in entries;
      assert last in entries;
      HandoversNarrow(rows, scope, front, shas, stored);
    }
  }

  ghost predicate InSome(batches: seq<map<Sha, Text>>, n: nat, sha: Sha)
    requires n <= |batches|
  {
    exists b :: 0 <= b < n && sha in batches[b]
  }

  ghost predicate TrueBodies(rows: Rows, scope: string, shas: seq<Sha>, batch: map<Sha, Text>) {
    forall sha | sha in batch :: sha in shas && Stores(rows, scope, sha) && batch[sha] == rows[Key(scope, sha)].body
  }

  ghost predicate ApartFrom(batch: map<Sha, Text>, later: map<Sha, Text>) { forall sha | sha in batch :: sha !in later }

  ghost predicate BatchesOf(rows: Rows, scope: string, shas: seq<Sha>, batches: seq<map<Sha, Text>>) {
    && (forall b | 0 <= b < |batches| :: |batches[b]| <= 500)
    && (forall b | 0 <= b < |batches| :: TrueBodies(rows, scope, shas, batches[b]))
    && (forall sha | sha in shas && Stores(rows, scope, sha) :: InSome(batches, |batches|, sha))
    && (forall a, b | 0 <= a < b < |batches| :: ApartFrom(batches[a], batches[b]))
  }

  lemma NoBatches(rows: Rows, scope: string)
    ensures BatchesOf(rows, scope, [], [])
  {
  }

  lemma StillInSome(batches: seq<map<Sha, Text>>, batch: map<Sha, Text>, sha: Sha)
    ensures InSome(batches + [batch], |batches| + 1, sha) <==> InSome(batches, |batches|, sha) || sha in batch
  {
    var longer := batches + [batch];
    assert longer[|batches|] == batch;
    if InSome(batches, |batches|, sha) {
      var b :| 0 <= b < |batches| && sha in batches[b];
      assert longer[b] == batches[b];
    }
  }

  ghost predicate Distinct(shas: seq<Sha>) { forall i, j | 0 <= i < j < |shas| :: shas[i] != shas[j] }

  lemma Apart(a: seq<Sha>, b: seq<Sha>, sha: Sha)
    requires Distinct(a + b) && sha in a
    ensures sha !in b
  {
    var j :| 0 <= j < |a| && a[j] == sha;
    forall k | 0 <= k < |b|
      ensures b[k] != sha
    {
      assert (a + b)[j] == a[j] && (a + b)[|a| + k] == b[k];
    }
  }

  lemma FrontDistinct(shas: seq<Sha>, end: nat)
    requires Distinct(shas) && end <= |shas|
    ensures Distinct(shas[..end])
  {
  }

  lemma OneMoreBatch(rows: Rows, scope: string, before: seq<Sha>, added: seq<Sha>, all: seq<Sha>,
                     batches: seq<map<Sha, Text>>, batch: map<Sha, Text>)
    requires all == before + added && Distinct(all)
    requires BatchesOf(rows, scope, before, batches) && |batch| <= CONTENT_READ_BATCH
    requires batch == map sha | sha in added && Stores(rows, scope, sha) :: rows[Key(scope, sha)].body
    ensures BatchesOf(rows, scope, all, batches + [batch])
  {
    hide InSome, Distinct, TrueBodies, ApartFrom;
    var longer := batches + [batch];
    forall sha | sha in all && Stores(rows, scope, sha)
      ensures InSome(longer, |longer|, sha)
    {
      StillInSome(batches, batch, sha);
    }
    forall b | 0 <= b < |batches|
      ensures longer[b] == batches[b] && TrueBodies(rows, scope, all, longer[b]) && ApartFrom(batches[b], batch)
    {
      OldBatch(rows, scope, before, added, batches[b], batch);
    }
    assert longer[|batches|] == batch;
    NewBatch(rows, scope, before, added, batch);
  }

  lemma OldBatch(rows: Rows, scope: string, before: seq<Sha>, added: seq<Sha>, earlier: map<Sha, Text>,
                 batch: map<Sha, Text>)
    requires Distinct(before + added) && TrueBodies(rows, scope, before, earlier)
               && forall sha | sha in batch :: sha in added
    ensures TrueBodies(rows, scope, before + added, earlier) && ApartFrom(earlier, batch)
  {
    forall sha | sha in earlier
      ensures sha !in batch
    {
      Apart(before, added, sha);
    }
  }

  lemma NewBatch(rows: Rows, scope: string, before: seq<Sha>, added: seq<Sha>, batch: map<Sha, Text>)
    requires batch == map sha | sha in added && Stores(rows, scope, sha) :: rows[Key(scope, sha)].body
    ensures TrueBodies(rows, scope, before + added, batch)
  {
  }

  lemma SameShas(rows: Rows, scope: string, unique: seq<Sha>, shas: seq<Sha>, batches: seq<map<Sha, Text>>)
    requires BatchesOf(rows, scope, unique, batches) && forall sha :: sha in unique <==> sha in shas
    ensures BatchesOf(rows, scope, shas, batches)
  {
  }

  lemma InNone(batches: seq<map<Sha, Text>>)
    ensures forall sha :: !InSome(batches, 0, sha)
  {
  }

  lemma BatchAt(rows: Rows, scope: string, shas: seq<Sha>, batches: seq<map<Sha, Text>>, b: nat)
    requires BatchesOf(rows, scope, shas, batches) && b < |batches|
    ensures forall sha | sha in batches[b] :: Stores(rows, scope, sha) && batches[b][sha] == rows[Key(scope, sha)].body
    ensures forall sha | sha in batches[b] :: !InSome(batches, b, sha)
    ensures forall sha :: InSome(batches, b + 1, sha) <==> InSome(batches, b, sha) || sha in batches[b]
  {
    assert TrueBodies(rows, scope, shas, batches[b]);
    assert forall a | 0 <= a < b :: ApartFrom(batches[a], batches[b]);
    hide BatchesOf;
    forall sha
      ensures InSome(batches, b + 1, sha) <==> InSome(batches, b, sha) || sha in batches[b]
      ensures sha in batches[b] ==> !InSome(batches, b, sha)
    {
      OneMoreBatchHas(batches, b, sha);
      if InSome(batches, b, sha) {
        var a :| 0 <= a < b && sha in batches[a];
        assert ApartFrom(batches[a], batches[b]);
      }
    }
  }

  lemma OneMoreBatchHas(batches: seq<map<Sha, Text>>, b: nat, sha: Sha)
    requires b < |batches|
    ensures InSome(batches, b + 1, sha) <==> InSome(batches, b, sha) || sha in batches[b]
  {
    if InSome(batches, b, sha) {
      var c :| 0 <= c < b && sha in batches[c];
      assert c < b + 1;
    }
  }

  lemma FoundAre(rows: Rows, scope: string, entries: seq<Named>, shas: seq<Sha>, batches: seq<map<Sha, Text>>,
                 found: set<Sha>)
    requires |shas| == |entries| && forall i | 0 <= i < |entries| :: shas[i] == entries[i].sha
    requires BatchesOf(rows, scope, shas, batches) && forall sha :: sha in found <==> InSome(batches, |batches|, sha)
    ensures found == set sha | sha in ShasOf(entries) && Stores(rows, scope, sha)
    ensures Handovers(rows, scope, entries, ShasOf(entries)) == Handovers(rows, scope, entries, found)
  {
    hide Handovers;
    forall sha
      ensures sha in shas <==> sha in ShasOf(entries)
    {
      if sha in shas {
        var i :| 0 <= i < |shas| && shas[i] == sha;
        assert entries[i] in entries;
      }
      if sha in ShasOf(entries) {
        var i :| 0 <= i < |entries| && entries[i].sha == sha;
        assert shas[i] == sha;
      }
    }
    HandoversNarrow(rows, scope, entries, ShasOf(entries), found);
  }

  /** The pool as a table updated in place. */
  class GuardPool {
    var rows: Rows

    constructor ()
      ensures rows == map[]
    {
      rows := map[];
    }

    /** True exactly when a new row was written. */
    method Put(scope: string, sha: Sha, body: Text, now: int) returns (inserted: bool)
      modifies this
      ensures rows == PutRow(old(rows), Key(scope, sha), body, now)
      ensures inserted <==> Key(scope, sha) !in old(rows)
    {
      var key := Key(scope, sha);
      inserted := key !in rows;
      rows := rows[key := if inserted then Stored(body, now) else rows[key].(createdAt := now)];
    }

    /** The two statements of a collection, with nothing between them. */
    method Gc(scope: string, live: set<Sha>, before: Before) returns (deleted: nat)
      modifies this
      ensures rows == Collected(old(rows), scope, live, before)
      ensures deleted == |DeadShas(old(rows), scope, live, before)|
    {
      var found := set key | key in rows && key.scope == scope && OldEnough(rows[key], before) :: key.sha;
      var dead := set sha | sha in found && sha !in live;
      assert dead == DeadShas(rows, scope, live, before);
      deleted := |dead|;
      if dead == {} {
        assert rows == DeleteShas(rows, scope, dead);
        return;
      }
      rows := map key | key in rows && !(key.scope == scope && key.sha in dead) :: rows[key];
    }

    // --- Saving -----------------------------------------------------------------------------

    /** Every body put once, in whatever order the workers reach them. */
    method PutBodies(scope: string, bodies: map<Sha, Text>, at: Sha -> int)
      modifies this
      ensures rows == PutAll(old(rows), scope, bodies, at)
    {
      var remaining, done := bodies.Keys, map[];
      assert rows == PutAll(old(rows), scope, map[], at);
      while remaining != {}
        invariant remaining <= bodies.Keys && done == map sha | sha in bodies.Keys - remaining :: bodies[sha]
        invariant rows == PutAll(old(rows), scope, done, at)
        decreases remaining
      {
        var sha :| sha in remaining;
        PutOneMore(old(rows), scope, done, sha, bodies[sha], at);
        var _ := Put(scope, sha, bodies[sha], at(sha));
        remaining, done := remaining - {sha}, done[sha := bodies[sha]];
      }
      assert done == bodies;
    }

    method SaveBundle(scope: string, files: seq<File>, at: Sha -> int) returns (result: SaveResult)
      requires DistinctRels(files)
      modifies this
      ensures result.UnsafePath? ==>
                rows == old(rows) && exists f :: f in files && f.rel == result.rel && !SafeRel(f.rel)
      ensures result.Saved? <==> forall f | f in files :: f.rel == PROTO || SafeRel(f.rel)
      ensures result.Saved? ==>
                result.manifest == ManifestOf(files) && rows == PutAll(old(rows), scope, BodiesOf(files), at)
    {
      var manifest: map<string, Sha>, unique: map<Sha, Text> := map[], map[];
      for i := 0 to |files|
        invariant rows == old(rows)
        invariant forall k | 0 <= k < i :: files[k].rel == PROTO || SafeRel(files[k].rel)
        invariant manifest == ManifestOf(files[..i]) && unique == BodiesOf(files[..i])
      {
        assert files[..i + 1][..i] == files[..i];
        var f := files[i];
        if f.rel == PROTO { continue; }
        if !SafeRel(f.rel) { return UnsafePath(f.rel); }
        var sha := ShaOf(f.text);
        manifest := Assign(manifest, f.rel, sha);
        BodiesAreDecoded(files[..i], sha);
        if sha !in unique { unique := unique[sha := Decode(Encode(f.text))]; }
      }
      assert files[..|files|] == files;
      PutBodies(scope, unique, at);
      result := Saved(manifest);
    }

    // --- Loading --------------------------------------------------------------------------------

    /** Each distinct hash once, in order of first use. */
    static method Unique(shas: seq<Sha>) returns (unique: seq<Sha>)
      ensures forall sha :: sha in unique <==> sha in shas
      ensures Distinct(unique)
    {
      unique := [];
      for i := 0 to |shas|
        invariant forall sha :: sha in unique <==> sha in shas[..i]
        invariant Distinct(unique)
      {
        if shas[i] !in unique { unique := unique + [shas[i]]; }
      }
      assert shas[..|shas|] == shas;
    }

    /** The stored bodies of some hashes, at most 500 a batch, no hash in two batches. */
    method GetMany(scope: string, shas: seq<Sha>) returns (batches: seq<map<Sha, Text>>)
      ensures BatchesOf(rows, scope, shas, batches)
    {
      hide BatchesOf, Distinct;
      var unique := Unique(shas);
      batches := [];
      var i := 0;
      NoBatches(rows, scope);
      while i < |unique|
        invariant BatchesOf(rows, scope, unique[..if i < |unique| then i else |unique|], batches)
      {
        var end := if i + CONTENT_READ_BATCH < |unique| then i + CONTENT_READ_BATCH else |unique|;
        var batch := ReadBatch(scope, unique[i..end]);
        FrontDistinct(unique, end);
        assert unique[..end] == unique[..i] + unique[i..end];
        OneMoreBatch(rows, scope, unique[..i], unique[i..end], unique[..end], batches, batch);
        batches := batches + [batch];
        i := i + CONTENT_READ_BATCH;
      }
      assert unique[..|unique|] == unique;
      SameShas(rows, scope, unique, shas, batches);
    }

    /** One query. */
    method ReadBatch(scope: string, shas: seq<Sha>) returns (batch: map<Sha, Text>)
      ensures batch == map sha | sha in shas && Stores(rows, scope, sha) :: rows[Key(scope, sha)].body
      ensures |batch| <= |shas|
    {
      batch := map sha | sha in shas && Stores(rows, scope, sha) :: rows[Key(scope, sha)].body;
      DistinctCount(shas);
      SubsetSize(batch.Keys, set sha | sha in shas);
    }

    /** Each entry's body handed over exactly once, whatever order the rows come back in. */
    method ForEachBody(scope: string, entries: seq<Named>) returns (handed: seq<Handed>, found: set<Sha>)
      ensures multiset(handed) == multiset(Handovers(rows, scope, entries, ShasOf(entries)))
      ensures found == set sha | sha in ShasOf(entries) && Stores(rows, scope, sha)
    {
      hide Handovers, ShasOf, BatchesOf, InSome;
      var shas := seq(|entries|, i requires 0 <= i < |entries| => entries[i].sha);
      var batches := GetMany(scope, shas);
      handed, found := [], {};
      NothingHanded(rows, scope, entries);
      InNone(batches);
      for b := 0 to |batches|
        invariant multiset(handed) == multiset(Handovers(rows, scope, entries, found))
        invariant forall sha :: sha in found <==> InSome(batches, b, sha)
      {
        BatchAt(rows, scope, shas, batches, b);
        handed, found := HandBatch(scope, entries, batches[b], handed, found);
      }
      FoundAre(rows, scope, entries, shas, batches, found);
    }

    method HandBatch(scope: string, entries: seq<Named>, batch: map<Sha, Text>, before: seq<Handed>, seen: set<Sha>)
      returns (handed: seq<Handed>, found: set<Sha>)
      requires batch.Keys !! seen
      requires forall sha | sha in batch :: Stores(rows, scope, sha) && batch[sha] == rows[Key(scope, sha)].body
      requires multiset(before) == multiset(Handovers(rows, scope, entries, seen))
      ensures multiset(handed) == multiset(Handovers(rows, scope, entries, found))
      ensures found == seen + batch.Keys
    {
      handed, found := before, seen;
      var left := batch.Keys;
      while left != {}
        invariant left <= batch.Keys && left !! found && found == seen + (batch.Keys - left)
        invariant multiset(handed) == multiset(Handovers(rows, scope, entries, found))
        decreases left
      {
        var sha :| sha in left;
        OneMoreSha(rows, scope, entries, found, sha);
        handed := handed + HandAll(NamesOf(entries, sha), batch[sha]);
        left, found := left - {sha}, found + {sha};
      }
    }

    method LoadBundle(scope: string, manifest: map<string, Sha>) returns (result: LoadResult)
      ensures result.UnsafeStored? <==> exists rel :: rel in manifest && !SafeRel(rel)
      ensures result.MissingObject? ==>
                result.rel in manifest && manifest[result.rel] == result.sha && !Stores(rows, scope, result.sha)
      ensures result.Loaded? <==> forall rel | rel in manifest :: SafeRel(rel) && Stores(rows, scope, manifest[rel])
      ensures result.Loaded? ==>
                result.files == map rel | rel in manifest && rel != PROTO && Stores(rows, scope, manifest[rel]) ::
                    rows[Key(scope, manifest[rel])].body
    {
      if rel :| rel in manifest && !SafeRel(rel) { return UnsafeStored(rel); }
      var entries := EntriesOf(manifest);
      var handed, found := ForEachBody(scope, entries);
      if rel :| rel in manifest && manifest[rel] !in found {
        ManifestListed(manifest, entries, rel);
        return MissingObject(rel, manifest[rel]);
      }
      forall rel | rel in manifest
        ensures Stores(rows, scope, manifest[rel])
      {
        assert manifest[rel] in found;
      }
      var files := Collect(handed);
      ghost var want := map rel | rel in manifest && rel != PROTO && Stores(rows, scope, manifest[rel]) ::
          rows[Key(scope, manifest[rel])].body;
      HandedAre(rows, scope, manifest, entries, handed);
      CollectedAre(handed, files, want);
      result := Loaded(files);
    }

    static method EntriesOf(manifest: map<string, Sha>) returns (entries: seq<Named>)
      ensures forall e :: e in entries <==> e.name in manifest && manifest[e.name] == e.sha
    {
      entries := [];
      var left := manifest.Keys;
      while left != {}
        invariant left <= manifest.Keys
        invariant forall e :: e in entries <==> e.name in manifest && e.name !in left && manifest[e.name] == e.sha
        decreases left
      {
        var name :| name in left;
        entries := entries + [Named(name, manifest[name])];
        left := left - {name};
      }
    }

    /** The callback's effect: one assignment a handover. */
    static method Collect(handed: seq<Handed>) returns (files: map<string, Text>)
      ensures forall rel :: rel in files <==> rel != PROTO && exists i :: 0 <= i < |handed| && handed[i].name == rel
      ensures forall rel | rel in files :: Handed(rel, files[rel]) in handed
    {
      files := map[];
      for i := 0 to |handed|
        invariant forall rel :: rel in files <==> rel != PROTO && exists k :: 0 <= k < i && handed[k].name == rel
        invariant forall rel | rel in files :: Handed(rel, files[rel]) in handed
      {
        files := Assign(files, handed[i].name, handed[i].body);
      }
    }
  }

  // --- Proofs about saves -----------------------------------------------------------------------

  lemma PutOneMore(rows: Rows, scope: string, done: map<Sha, Text>, sha: Sha, body: Text, at: Sha -> int)
    requires sha !in done
    ensures PutRow(PutAll(rows, scope, done, at), Key(scope, sha), body, at(sha)) ==
              PutAll(rows, scope, done[sha := body], at)
  {
    var before, after := PutAll(rows, scope, done, at), PutAll(rows, scope, done[sha := body], at);
    var put := PutRow(before, Key(scope, sha), body, at(sha));
    forall key
      ensures key in put <==> key in after
      ensures key in put ==> put[key] == after[key]
    {
      assert key.scope == scope && key.sha == sha <==> key == Key(scope, sha);
    }
  }

  lemma {:induction false} BodiesAreDecoded(files: seq<File>, sha: Sha)
    ensures sha in BodiesOf(files) ==> BodiesOf(files)[sha] == Decode(sha.bytes)
  {
    if files != [] { BodiesAreDecoded(files[..|files| - 1], sha); }
  }

  lemma DistinctCount(shas: seq<Sha>)
    ensures |set sha | sha in shas| <= |shas|
  {
    if shas != [] {
      var front, last := shas[..|shas| - 1], shas[|shas| - 1];
      DistinctCount(front);
      assert (set sha | sha in shas) == (set sha | sha in front) + {last} by { assert shas == front + [last]; }
    }
  }

  // --- Proofs about loads -------------------------------------------------------------------------

  lemma ManifestListed(manifest: map<string, Sha>, entries: seq<Named>, rel: string)
    requires forall e :: e in entries <==> e.name in manifest && manifest[e.name] == e.sha
    requires rel in manifest
    ensures manifest[rel] in ShasOf(entries)
  {
    assert Named(rel, manifest[rel]) in entries;
  }

  lemma {:induction false} HandoversHave(rows: Rows, scope: string, entries: seq<Named>, shas: set<Sha>, h: Handed)
    ensures h in Handovers(rows, scope, entries, shas) <==>
            exists e :: e in entries && e.name == h.name && e.sha in shas && Stores(rows, scope, e.sha)
                && rows[Key(scope, e.sha)].body == h.body
  {
    if entries != [] {
      var front, last := entries[..|entries| - 1], entries[|entries| - 1];
      HandoversHave(rows, scope, front, shas, h);
      assert entries == front + [last];
    }
  }

  lemma HandedAre(rows: Rows, scope: string, manifest: map<string, Sha>, entries: seq<Named>, handed: seq<Handed>)
    requires forall e :: e in entries <==> e.name in manifest && manifest[e.name] == e.sha
    requires multiset(handed) == multiset(Handovers(rows, scope, entries, ShasOf(entries)))
    ensures forall h :: h in handed <==>
              h.name in manifest && Stores(rows, scope, manifest[h.name])
                  && rows[Key(scope, manifest[h.name])].body == h.body
  {
    hide Handovers, ShasOf;
    forall h
      ensures h in handed <==>
                h.name in manifest && Stores(rows, scope, manifest[h.name])
                    && rows[Key(scope, manifest[h.name])].body == h.body
    {
      assert h in handed <==> h in multiset(handed);
      assert h in Handovers(rows, scope, entries, ShasOf(entries)) <==>
          h in multiset(Handovers(rows, scope, entries, ShasOf(entries)));
      HandoversHave(rows, scope, entries, ShasOf(entries), h);
      if h.name in manifest {
        assert Named(h.name, manifest[h.name]) in entries;
        ManifestListed(manifest, entries, h.name);
      }
    }
  }

  lemma CollectedAre(handed: seq<Handed>, files: map<string, Text>, want: map<string, Text>)
    requires forall rel :: rel in files <==> rel != PROTO && exists i :: 0 <= i < |handed| && handed[i].name == rel
    requires forall rel | rel in files :: Handed(rel, files[rel]) in handed
    requires forall h | h in handed && h.name != PROTO :: h.name in want && want[h.name] == h.body
    requires forall rel | rel in want :: rel != PROTO && Handed(rel, want[rel]) in handed
    ensures files == want
  {
    forall rel
      ensures rel in files <==> rel in want
      ensures rel in files ==> files[rel] == want[rel]
    {
      if rel in want {
        var i :| 0 <= i < |handed| && handed[i] == Handed(rel, want[rel]);
        assert handed[i].name == rel;
      }
      if rel in files { assert Handed(rel, files[rel]) in handed; }
    }
  }

  // --- The round trip -------------------------------------------------------------------------------

  /** Saving keeps the pool faithful. */
  lemma SaveKeepsFaithful(rows: Rows, scope: string, files: seq<File>, at: Sha -> int)
    requires Faithful(rows, scope)
    ensures Faithful(PutAll(rows, scope, BodiesOf(files), at), scope)
  {
    forall key | key in PutAll(rows, scope, BodiesOf(files), at) && key.scope == scope
      ensures PutAll(rows, scope, BodiesOf(files), at)[key].body == Decode(key.sha.bytes)
    {
      BodiesAreDecoded(files, key.sha);
    }
  }

  lemma {:induction false} ManifestIs(files: seq<File>, rel: string)
    requires DistinctRels(files)
    ensures rel in ManifestOf(files) <==> rel != PROTO && exists i :: 0 <= i < |files| && files[i].rel == rel
    ensures forall i | 0 <= i < |files| && files[i].rel == rel && rel != PROTO ::
              ManifestOf(files)[rel] == ShaOf(files[i].text) && ShaOf(files[i].text) in BodiesOf(files)
  {
    if files != [] {
      var front, last := files[..|files| - 1], files[|files| - 1];
      ManifestIs(front, rel);
      assert forall i | 0 <= i < |front| :: files[i] == front[i];
      if exists i :: 0 <= i < |files| && files[i].rel == rel {
        var i :| 0 <= i < |files| && files[i].rel == rel;
        assert i < |front| ==> front[i].rel == rel;
      }
    }
  }

  predicate HasFile(files: seq<File>, rel: string) { exists i :: 0 <= i < |files| && files[i].rel == rel }

  /** What loading hands back for a file: its text with lone surrogates replaced. */
  ghost predicate LoadsBack(files: seq<File>, loaded: map<string, Text>) {
    && (forall rel :: rel in loaded <==> rel != PROTO && HasFile(files, rel))
    && (forall i | 0 <= i < |files| && files[i].rel != PROTO ::
        files[i].rel in loaded && loaded[files[i].rel] == Scrub(files[i].text))
  }

  /** The very object that was saved. */
  ghost predicate SameFiles(files: seq<File>, loaded: map<string, Text>) {
    && (forall rel :: rel in loaded <==> HasFile(files, rel))
    && (forall i | 0 <= i < |files| :: files[i].rel in loaded && loaded[files[i].rel] == files[i].text)
  }

  /** What `LoadBundle` returns when nothing is unsafe or missing. */
  function LoadedFrom(rows: Rows, scope: string, manifest: map<string, Sha>): map<string, Text> {
    map rel | rel in manifest && rel != PROTO && Stores(rows, scope, manifest[rel]) ::
        rows[Key(scope, manifest[rel])].body
  }

  lemma OneFileBack(later: Rows, scope: string, files: seq<File>, i: nat)
    requires Faithful(later, scope) && DistinctRels(files) && i < |files| && files[i].rel != PROTO
    requires Units(files[i].text)
    requires forall sha | sha in BodiesOf(files) :: Stores(later, scope, sha)
    ensures var loaded := LoadedFrom(later, scope, ManifestOf(files));
            files[i].rel in loaded && loaded[files[i].rel] == Scrub(files[i].text)
  {
    ManifestIs(files, files[i].rel);
    DecodeEncode(files[i].text);
    assert files[i].rel in ManifestOf(files);
  }

  /**
   * However the pool was written since, as long as the manifest's bodies are still in it: loading gives every file
   * back, each under its path, with only lone surrogates replaced.
   */
  lemma SavedBundleLoads(later: Rows, scope: string, files: seq<File>)
    requires Faithful(later, scope) && DistinctRels(files) && forall i | 0 <= i < |files| :: Units(files[i].text)
    requires forall sha | sha in BodiesOf(files) :: Stores(later, scope, sha)
    ensures LoadsBack(files, LoadedFrom(later, scope, ManifestOf(files)))
  {
    hide ManifestOf, BodiesOf, Scrub, Encode, HasFile;
    var loaded := LoadedFrom(later, scope, ManifestOf(files));
    forall i | 0 <= i < |files| && files[i].rel != PROTO
      ensures files[i].rel in loaded && loaded[files[i].rel] == Scrub(files[i].text)
    {
      OneFileBack(later, scope, files, i);
    }
    forall rel
      ensures rel in loaded <==> rel != PROTO && HasFile(files, rel)
    {
      ManifestNames(files, rel);
      if rel in ManifestOf(files) { ManifestStored(files, rel); }
    }
  }

  lemma ManifestNames(files: seq<File>, rel: string)
    requires DistinctRels(files)
    ensures rel in ManifestOf(files) <==> rel != PROTO && HasFile(files, rel)
  {
    ManifestIs(files, rel);
  }

  lemma ManifestStored(files: seq<File>, rel: string)
    requires DistinctRels(files) && rel in ManifestOf(files)
    ensures rel != PROTO && ManifestOf(files)[rel] in BodiesOf(files)
  {
    ManifestIs(files, rel);
    var i :| 0 <= i < |files| && files[i].rel == rel;
  }

  /**
   * A save straight into any faithful pool, and a collection that spares what the manifest names, lead to such a pool.
   */
  lemma SaveAndSweepLoads(rows: Rows, scope: string, files: seq<File>, at: Sha -> int, live: set<Sha>, before: Before)
    requires Faithful(rows, scope) && DistinctRels(files) && forall i | 0 <= i < |files| :: Units(files[i].text)
    requires forall sha | sha in BodiesOf(files) :: sha in live
    ensures var saved := PutAll(rows, scope, BodiesOf(files), at);
            LoadsBack(files, LoadedFrom(DeleteShas(saved, scope, DeadShas(saved, scope, live, before)), scope,
                                        ManifestOf(files)))
  {
    hide BodiesOf, ManifestOf, LoadsBack, LoadedFrom;
    var saved := PutAll(rows, scope, BodiesOf(files), at);
    SaveKeepsFaithful(rows, scope, files, at);
    SavedBundleLoads(DeleteShas(saved, scope, DeadShas(saved, scope, live, before)), scope, files);
  }

  /** The round trip is exact precisely for well-formed text under ordinary names. */
  lemma RoundTripExactlyWhen(files: seq<File>, loaded: map<string, Text>)
    requires DistinctRels(files) && LoadsBack(files, loaded)
    ensures SameFiles(files, loaded) <==>
              forall i | 0 <= i < |files| :: files[i].rel != PROTO && WellFormed(files[i].text)
  {
    forall i | 0 <= i < |files|
      ensures Scrub(files[i].text) == files[i].text <==> WellFormed(files[i].text)
    {
      SurvivesExactlyWhenWellFormed(files[i].text);
    }
  }
}
