/**
 * How documents are grouped into areas and an area too big for one session is sharded
 * (packages/guard-generator/src/flows.ts: `flowAreaIdForDoc`, `shardArea`, `buildFlowAreas`, `flowAreaKey`).
 */
module FlowSharding {
  import opened Common
  import opened Text
  import opened FlowModel
  import opened FlowValidation
  import opened FlowIdentity
  import opened FlowFold

  const FLOW_AREA_CLAIM_CEILING := 200

  // --- Contiguous groups ----------------------------------------------------------------

  function Concat<T>(groups: seq<seq<T>>): seq<T> {
    if groups == [] then [] else Concat(groups[..|groups| - 1]) + groups[|groups| - 1]
  }

  lemma {:induction false} ConcatFront<T>(groups: seq<seq<T>>)
    requires groups != []
    ensures Concat(groups) == groups[0] + Concat(groups[1..])
  {
    var front := groups[..|groups| - 1];
    if front == [] {
      assert groups[1..] == [];
    } else {
      ConcatFront(front);
      assert groups[1..][..|groups[1..]| - 1] == front[1..];
      assert groups[1..][|groups[1..]| - 1] == groups[|groups| - 1];
    }
  }

  function Load(weight: string -> nat, docs: seq<string>): nat {
    if docs == [] then 0 else weight(docs[0]) + Load(weight, docs[1..])
  }

  lemma {:induction false} LoadAppend(weight: string -> nat, a: seq<string>, b: seq<string>)
    ensures Load(weight, a + b) == Load(weight, a) + Load(weight, b)
  {
    if a == [] { assert a + b == b; }
    else {
      assert (a + b)[1..] == a[1..] + b;
      LoadAppend(weight, a[1..], b);
    }
  }

  /** A group one session can take: under the ceiling, or a single document. */
  predicate Fits(weight: string -> nat, group: seq<string>) {
    Load(weight, group) <= 200 || |group| <= 1
  }

  /** The group is not empty, and is closed only because the next document would not fit. */
  ghost predicate WellClosed(weight: string -> nat, groups: seq<seq<string>>, k: nat)
    requires k < |groups|
  {
    && groups[k] != [] && Fits(weight, groups[k])
    && (k + 1 < |groups| ==>
        groups[k + 1] != [] && Load(weight, groups[k]) + weight(groups[k + 1][0]) > FLOW_AREA_CLAIM_CEILING)
  }

  ghost predicate Packed(weight: string -> nat, groups: seq<seq<string>>) {
    forall k | 0 <= k < |groups| :: WellClosed(weight, groups, k)
  }

  /** A group that starts before `first` cannot reach past it. */
  lemma CannotReachPast(weight: string -> nat, group: seq<string>, r: seq<string>, first: seq<string>, next: string)
    requires first != [] && Load(weight, first) + weight(next) > FLOW_AREA_CLAIM_CEILING
    requires r + first + [next] <= group
    ensures !Fits(weight, group)
  {
    var rest := group[|r + first + [next]|..];
    assert group == r + first + [next] + rest;
    LoadAppend(weight, r + first + [next], rest);
    LoadAppend(weight, r + first, [next]);
    LoadAppend(weight, r, first);
    assert Load(weight, [next]) == weight(next) + Load(weight, []);
  }

  lemma PackedTail(weight: string -> nat, groups: seq<seq<string>>)
    requires Packed(weight, groups) && groups != []
    ensures Packed(weight, groups[1..])
  {
    forall k | 0 <= k < |groups| - 1
      ensures WellClosed(weight, groups[1..], k)
    {
      assert WellClosed(weight, groups, k + 1);
    }
  }

  /** Any fitting groups over a remainder and the packed groups after it are at least as many as those. */
  lemma {:induction false} PackingStaysAhead(weight: string -> nat, r: seq<string>, groups: seq<seq<string>>,
                                             other: seq<seq<string>>)
    requires Packed(weight, groups) && forall k | 0 <= k < |other| :: Fits(weight, other[k])
    requires Concat(other) == r + Concat(groups)
    ensures |groups| <= |other|
    decreases |other|
  {
    if groups == [] { return; }
    ConcatFront(groups);
    assert WellClosed(weight, groups, 0);
    assert |r + Concat(groups)| >= |groups[0]| > 0;
    ConcatFront(other);
    var p, rest := other[0], Concat(groups[1..]);
    var whole := r + groups[0] + rest;
    assert Concat(other) == whole;
    if |p| <= |r| {
      assert Concat(other[1..]) == whole[|p|..] == r[|p|..] + Concat(groups);
      PackingStaysAhead(weight, r[|p|..], groups, other[1..]);
    } else {
      PackedTail(weight, groups);
      NeverReachesPast(weight, r, groups, p);
      var q := |p| - |r|;
      assert Concat(other[1..]) == whole[|p|..] == groups[0][q..] + rest;
      PackingStaysAhead(weight, groups[0][q..], groups[1..], other[1..]);
    }
  }

  lemma NeverReachesPast(weight: string -> nat, r: seq<string>, groups: seq<seq<string>>, p: seq<string>)
    requires Packed(weight, groups) && groups != [] && Fits(weight, p)
    requires p <= r + groups[0] + Concat(groups[1..])
    ensures |p| <= |r| + |groups[0]|
  {
    var tail := groups[1..];
    if tail != [] && |p| > |r| + |groups[0]| {
      ConcatFront(tail);
      assert WellClosed(weight, groups, 0);
      var next := groups[1][0];
      assert (r + groups[0] + Concat(tail))[|r| + |groups[0]|] == next;
      assert r + groups[0] + [next] <= p;
      CannotReachPast(weight, p, r, groups[0], next);
    }
  }

  /** Greedy packing uses the fewest groups of any contiguous partition into groups that fit. */
  lemma PackingIsFewest(weight: string -> nat, docs: seq<string>, groups: seq<seq<string>>, other: seq<seq<string>>)
    requires Packed(weight, groups) && Concat(groups) == docs
    requires Concat(other) == docs && forall k | 0 <= k < |other| :: Fits(weight, other[k])
    ensures |groups| <= |other|
  {
    assert Concat(other) == [] + Concat(groups);
    PackingStaysAhead(weight, [], groups, other);
  }

  // --- One area -----------------------------------------------------------------------------

  function OfDoc(claims: seq<Claim>, doc: string): seq<Claim> {
    if claims == [] then []
    else OfDoc(claims[..|claims| - 1], doc) + (if claims[|claims| - 1].doc == doc then [claims[|claims| - 1]] else [])
  }

  /** The claims of some documents, document by document. */
  function OfDocs(claims: seq<Claim>, docs: seq<string>): seq<Claim> {
    if docs == [] then [] else OfDocs(claims, docs[..|docs| - 1]) + OfDoc(claims, docs[|docs| - 1])
  }

  function Weight(claims: seq<Claim>): string -> nat { doc => |OfDoc(claims, doc)| }

  lemma {:induction false} OfDocsWeighs(claims: seq<Claim>, docs: seq<string>)
    ensures |OfDocs(claims, docs)| == Load(Weight(claims), docs)
  {
    if docs != [] {
      var front, last := docs[..|docs| - 1], docs[|docs| - 1];
      OfDocsWeighs(claims, front);
      assert docs == front + [last];
      LoadAppend(Weight(claims), front, [last]);
      assert Load(Weight(claims), [last]) == Weight(claims)(last) + Load(Weight(claims), []);
    }
  }

  function DocGroups(chunks: seq<Area>): seq<seq<string>> {
    seq(|chunks|, i requires 0 <= i < |chunks| => chunks[i].docs)
  }

  /** The chunks in order hold the documents in order, each with all its claims, as few as can be. */
  ghost predicate Shards(area: Area, chunks: seq<Area>) {
    && Concat(DocGroups(chunks)) == area.docs
    && Packed(Weight(area.claims), DocGroups(chunks))
    && forall k | 0 <= k < |chunks| ::
         chunks[k] == Area(area.areaId, OfDocs(area.claims, chunks[k].docs), chunks[k].docs, Some(k))
  }

  method ShardArea(area: Area) returns (chunks: seq<Area>)
    ensures |area.claims| <= 200 ==> chunks == [area]
    ensures |area.claims| > 200 ==> Shards(area, chunks)
  {
    if |area.claims| <= FLOW_AREA_CLAIM_CEILING { return [area]; }
    chunks := [];
    for i := 0 to |area.docs|
      invariant Shards(area.(docs := area.docs[..i]), chunks)
    {
      var doc := area.docs[i];
      var claims := OfDoc(area.claims, doc);
      assert area.docs[..i + 1] == area.docs[..i] + [doc];
      if chunks == [] || |chunks[|chunks| - 1].claims| + |claims| > FLOW_AREA_CLAIM_CEILING {
        OpenChunk(area, i, chunks);
        chunks := chunks + [Area(area.areaId, claims, [doc], Some(|chunks|))];
      } else {
        var current := chunks[|chunks| - 1];
        FillChunk(area, i, chunks);
        chunks := chunks[|chunks| - 1 := current.(docs := current.docs + [doc], claims := current.claims + claims)];
      }
    }
    assert area.docs[..|area.docs|] == area.docs;
  }

  lemma OpenGroup(weight: string -> nat, groups: seq<seq<string>>, doc: string)
    requires Packed(weight, groups)
    requires groups == [] || Load(weight, groups[|groups| - 1]) + weight(doc) > FLOW_AREA_CLAIM_CEILING
    ensures Packed(weight, groups + [[doc]]) && Concat(groups + [[doc]]) == Concat(groups) + [doc]
  {
    ConcatOneMore(groups, [doc]);
    hide Load, Concat, WellClosed;
    forall k | 0 <= k < |groups| + 1
      ensures WellClosed(weight, groups + [[doc]], k)
    {
      if k < |groups| {
        assert WellClosed(weight, groups, k);
        StaysClosed(weight, groups, doc, k);
      } else { LastClosed(weight, groups, doc); }
    }
  }

  lemma StaysClosed(weight: string -> nat, groups: seq<seq<string>>, doc: string, k: nat)
    requires k < |groups| && WellClosed(weight, groups, k)
    requires Load(weight, groups[|groups| - 1]) + weight(doc) > FLOW_AREA_CLAIM_CEILING
    ensures WellClosed(weight, groups + [[doc]], k)
  {
    hide Load;
    var wider := groups + [[doc]];
    assert wider[k] == groups[k];
    if k + 1 < |groups| { assert wider[k + 1] == groups[k + 1]; } else { assert wider[k + 1] == [doc]; }
  }

  lemma LastClosed(weight: string -> nat, groups: seq<seq<string>>, doc: string)
    ensures WellClosed(weight, groups + [[doc]], |groups|)
  {
    assert (groups + [[doc]])[|groups|] == [doc];
  }

  lemma FillGroup(weight: string -> nat, groups: seq<seq<string>>, doc: string)
    requires Packed(weight, groups) && groups != []
    requires Load(weight, groups[|groups| - 1]) + weight(doc) <= FLOW_AREA_CLAIM_CEILING
    ensures var last := |groups| - 1;
            && Packed(weight, groups[last := groups[last] + [doc]])
            && Concat(groups[last := groups[last] + [doc]]) == Concat(groups) + [doc]
  {
    var last := |groups| - 1;
    var filled := groups[last := groups[last] + [doc]];
    LoadAppend(weight, groups[last], [doc]);
    assert Load(weight, [doc]) == weight(doc) + Load(weight, []);
    assert filled[..last] == groups[..last];
    hide Load, Concat;
    forall k | 0 <= k < |filled|
      ensures WellClosed(weight, filled, k)
    {
      assert WellClosed(weight, groups, k);
      if k + 1 == last { assert WellClosed(weight, groups, last); }
    }
  }

  lemma ConcatOneMore<T>(groups: seq<seq<T>>, group: seq<T>)
    ensures Concat(groups + [group]) == Concat(groups) + group
  {
    assert (groups + [group])[..|groups|] == groups;
  }

  lemma OpenChunk(area: Area, i: nat, chunks: seq<Area>)
    requires i < |area.docs| && Shards(area.(docs := area.docs[..i]), chunks)
    requires chunks == []
               || |chunks[|chunks| - 1].claims| + |OfDoc(area.claims, area.docs[i])| > FLOW_AREA_CLAIM_CEILING
    ensures Shards(area.(docs := area.docs[..i + 1]),
                   chunks + [Area(area.areaId, OfDoc(area.claims, area.docs[i]), [area.docs[i]], Some(|chunks|))])
  {
    hide Packed;
    var doc := area.docs[i];
    var widened := chunks + [Area(area.areaId, OfDoc(area.claims, doc), [doc], Some(|chunks|))];
    assert DocGroups(widened) == DocGroups(chunks) + [[doc]];
    assert area.docs[..i + 1] == area.docs[..i] + [doc];
    assert OfDocs(area.claims, [doc]) == OfDocs(area.claims, []) + OfDoc(area.claims, doc);
    if chunks != [] { OfDocsWeighs(area.claims, chunks[|chunks| - 1].docs); }
    OpenGroup(Weight(area.claims), DocGroups(chunks), doc);
  }

  lemma FillChunk(area: Area, i: nat, chunks: seq<Area>)
    requires i < |area.docs| && Shards(area.(docs := area.docs[..i]), chunks) && chunks != []
    requires |chunks[|chunks| - 1].claims| + |OfDoc(area.claims, area.docs[i])| <= FLOW_AREA_CLAIM_CEILING
    ensures var current := chunks[|chunks| - 1];
            Shards(area.(docs := area.docs[..i + 1]),
                   chunks[|chunks| - 1 :=
                       current.(docs := current.docs + [area.docs[i]],
                                claims := current.claims + OfDoc(area.claims, area.docs[i]))])
  {
    hide Packed;
    var doc, last, current := area.docs[i], |chunks| - 1, chunks[|chunks| - 1];
    var filled := chunks[last :=
        current.(docs := current.docs + [doc], claims := current.claims + OfDoc(area.claims, doc))];
    assert DocGroups(filled) == DocGroups(chunks)[last := current.docs + [doc]];
    assert area.docs[..i + 1] == area.docs[..i] + [doc];
    assert (current.docs + [doc])[..|current.docs|] == current.docs;
    OfDocsWeighs(area.claims, current.docs);
    FillGroup(Weight(area.claims), DocGroups(chunks), doc);
  }

  lemma {:induction false} OfDocsAppend(claims: seq<Claim>, a: seq<string>, b: seq<string>)
    ensures OfDocs(claims, a + b) == OfDocs(claims, a) + OfDocs(claims, b)
  {
    hide OfDoc;
    if b == [] { assert a + b == a; }
    else {
      assert (a + b)[..|a + b| - 1] == a + b[..|b| - 1];
      OfDocsAppend(claims, a, b[..|b| - 1]);
    }
  }

  function ClaimGroups(chunks: seq<Area>): seq<seq<Claim>> {
    seq(|chunks|, i requires 0 <= i < |chunks| => chunks[i].claims)
  }

  lemma {:induction false} ClaimsOfChunks(area: Area, chunks: seq<Area>, n: nat)
    requires Shards(area, chunks) && n <= |chunks|
    ensures Concat(ClaimGroups(chunks)[..n]) == OfDocs(area.claims, Concat(DocGroups(chunks)[..n]))
  {
    hide Packed;
    if n > 0 {
      ClaimsOfChunks(area, chunks, n - 1);
      assert ClaimGroups(chunks)[..n][..n - 1] == ClaimGroups(chunks)[..n - 1];
      assert DocGroups(chunks)[..n][..n - 1] == DocGroups(chunks)[..n - 1];
      OfDocsAppend(area.claims, Concat(DocGroups(chunks)[..n - 1]), chunks[n - 1].docs);
    }
  }

  /** Sharding loses and reorders no claim exactly when the area's claims stand document by document. */
  lemma ShardingKeepsClaims(area: Area, chunks: seq<Area>)
    requires Shards(area, chunks)
    ensures Concat(ClaimGroups(chunks)) == area.claims <==> area.claims == OfDocs(area.claims, area.docs)
    ensures forall k | 0 <= k < |chunks| && |chunks[k].claims| > FLOW_AREA_CLAIM_CEILING :: |chunks[k].docs| == 1
  {
    ClaimsOfChunks(area, chunks, |chunks|);
    assert ClaimGroups(chunks)[..|chunks|] == ClaimGroups(chunks) && DocGroups(chunks)[..|chunks|] == DocGroups(chunks);
    forall k | 0 <= k < |chunks| && |chunks[k].claims| > FLOW_AREA_CLAIM_CEILING
      ensures |chunks[k].docs| == 1
    {
      OfDocsWeighs(area.claims, chunks[k].docs);
      assert WellClosed(Weight(area.claims), DocGroups(chunks), k);
    }
  }

  /** A sharded area's chunks are the fewest any contiguous grouping of its documents allows. */
  lemma ShardsAreFewest(area: Area, chunks: seq<Area>, other: seq<seq<string>>)
    requires Shards(area, chunks) && Concat(other) == area.docs
    requires forall k | 0 <= k < |other| ::
               |OfDocs(area.claims, other[k])| <= FLOW_AREA_CLAIM_CEILING || |other[k]| <= 1
    ensures |chunks| <= |other|
  {
    forall k | 0 <= k < |other|
      ensures Fits(Weight(area.claims), other[k])
    {
      OfDocsWeighs(area.claims, other[k]);
    }
    PackingIsFewest(Weight(area.claims), area.docs, DocGroups(chunks), other);
  }

  // --- All areas ------------------------------------------------------------------------------

  datatype DocInput = DocInput(doc: string, areaTags: seq<string>, claims: seq<Claim>)

  /** The first corpus tag, or an area of the document's own. */
  function AreaIdOf(d: DocInput): string { if d.areaTags == [] then "doc:" + d.doc else d.areaTags[0] }

  /** The document's area: its first tag's, whatever its other tags; untagged, one of its own. */
  ghost predicate BelongsTo(d: DocInput, areaId: string) {
    match |d.areaTags|
    case 0 => areaId == "doc:" + d.doc
    case _ => areaId == d.areaTags[0]
  }

  function DocsIn(docs: seq<DocInput>, areaId: string): seq<string> {
    if docs == [] then []
    else
      DocsIn(docs[..|docs| - 1], areaId) + (if AreaIdOf(docs[|docs| - 1]) == areaId then [docs[|docs| - 1].doc] else [])
  }

  function ClaimsIn(docs: seq<DocInput>, areaId: string): seq<Claim> {
    if docs == [] then []
    else
      ClaimsIn(docs[..|docs| - 1], areaId)
      + (if AreaIdOf(docs[|docs| - 1]) == areaId then docs[|docs| - 1].claims else [])
  }

  /** Each document given once, with claims of its own. */
  ghost predicate OwnClaims(docs: seq<DocInput>) {
    && (forall i, j | 0 <= i < j < |docs| :: docs[i].doc != docs[j].doc)
    && (forall i | 0 <= i < |docs| :: forall c | c in docs[i].claims :: c.doc == docs[i].doc)
  }

  lemma {:induction false} OfDocSplits(a: seq<Claim>, b: seq<Claim>, doc: string)
    ensures OfDoc(a + b, doc) == OfDoc(a, doc) + OfDoc(b, doc)
  {
    if b == [] { assert a + b == a; }
    else {
      assert (a + b)[..|a + b| - 1] == a + b[..|b| - 1];
      OfDocSplits(a, b[..|b| - 1], doc);
    }
  }

  lemma {:induction false} OfDocOwn(claims: seq<Claim>, doc: string)
    ensures (forall c | c in claims :: c.doc == doc) ==> OfDoc(claims, doc) == claims
    ensures (forall c | c in claims :: c.doc != doc) ==> OfDoc(claims, doc) == []
  {
    if claims != [] { OfDocOwn(claims[..|claims| - 1], doc); }
  }

  lemma {:induction false} OfDocsIgnores(a: seq<Claim>, b: seq<Claim>, docs: seq<string>)
    requires forall c | c in b :: c.doc !in docs
    ensures OfDocs(a + b, docs) == OfDocs(a, docs)
  {
    if docs != [] {
      OfDocsIgnores(a, b, docs[..|docs| - 1]);
      OfDocSplits(a, b, docs[|docs| - 1]);
      OfDocOwn(b, docs[|docs| - 1]);
    }
  }

  lemma {:induction false} AreaNamesItsDocs(docs: seq<DocInput>, areaId: string)
    ensures forall doc | doc in DocsIn(docs, areaId) :: exists i :: 0 <= i < |docs| && docs[i].doc == doc
    ensures OwnClaims(docs) ==>
              forall c | c in ClaimsIn(docs, areaId) :: exists i :: 0 <= i < |docs| && docs[i].doc == c.doc
  {
    if docs != [] {
      var front, last := docs[..|docs| - 1], docs[|docs| - 1];
      AreaNamesItsDocs(front, areaId);
      assert docs[|docs| - 1] == last && forall i | 0 <= i < |front| :: docs[i] == front[i];
    }
  }

  /** An area's claims stand document by document. */
  lemma {:induction false} AreaStandsByDoc(docs: seq<DocInput>, areaId: string)
    requires OwnClaims(docs)
    ensures ClaimsIn(docs, areaId) == OfDocs(ClaimsIn(docs, areaId), DocsIn(docs, areaId))
  {
    if docs != [] {
      var front, last := docs[..|docs| - 1], docs[|docs| - 1];
      AreaStandsByDoc(front, areaId);
      if AreaIdOf(last) == areaId {
        var names, claims := DocsIn(front, areaId), ClaimsIn(front, areaId);
        NotAmong(docs, areaId);
        OneMoreDoc(names, claims, last.doc, last.claims);
        assert ClaimsIn(docs, areaId) == claims + last.claims && DocsIn(docs, areaId) == names + [last.doc];
      } else {
        assert ClaimsIn(docs, areaId) == ClaimsIn(front, areaId) && DocsIn(docs, areaId) == DocsIn(front, areaId);
      }
    }
  }

  lemma NotAmong(docs: seq<DocInput>, areaId: string)
    requires OwnClaims(docs) && docs != []
    ensures docs[|docs| - 1].doc !in DocsIn(docs[..|docs| - 1], areaId)
    ensures forall c | c in ClaimsIn(docs[..|docs| - 1], areaId) :: c.doc != docs[|docs| - 1].doc
  {
    AreaNamesItsDocs(docs[..|docs| - 1], areaId);
  }

  lemma OneMoreDoc(names: seq<string>, claims: seq<Claim>, doc: string, more: seq<Claim>)
    requires claims == OfDocs(claims, names) && doc !in names
    requires (forall c | c in claims :: c.doc != doc) && forall c | c in more :: c.doc == doc
    ensures claims + more == OfDocs(claims + more, names + [doc])
  {
    hide OfDocs, OfDoc;
    OfDocsIgnores(claims, more, names);
    OfDocSplits(claims, more, doc);
    OfDocOwn(claims, doc);
    OfDocOwn(more, doc);
    OfDocsOneMore(claims + more, names, doc);
    assert [] + more == more;
  }

  lemma OfDocsOneMore(claims: seq<Claim>, names: seq<string>, doc: string)
    ensures OfDocs(claims, names + [doc]) == OfDocs(claims, names) + OfDoc(claims, doc)
  {
    assert (names + [doc])[..|names|] == names;
  }

  // --- Grouping -----------------------------------------------------------------------------------

  function WholeArea(docs: seq<DocInput>, areaId: string): Area {
    Area(areaId, ClaimsIn(docs, areaId), DocsIn(docs, areaId), None)
  }

  predicate HasArea(areas: seq<Area>, areaId: string) { exists k :: 0 <= k < |areas| && areas[k].areaId == areaId }

  /** One area an id, each holding all its documents; every document has its area. */
  ghost predicate Groups(docs: seq<DocInput>, areas: seq<Area>) {
    && (forall k | 0 <= k < |areas| :: areas[k] == WholeArea(docs, areas[k].areaId))
    && DistinctAreas(areas)
    && (forall i | 0 <= i < |docs| :: HasArea(areas, AreaIdOf(docs[i])))
  }

  ghost predicate DistinctAreas(areas: seq<Area>) {
    forall j, k | 0 <= j < k < |areas| :: areas[j].areaId != areas[k].areaId
  }

  /** `byArea`: where each area stands. */
  ghost predicate Located(at: map<string, nat>, areas: seq<Area>) {
    && (forall id | id in at :: at[id] < |areas| && areas[at[id]].areaId == id)
    && (forall k | 0 <= k < |areas| :: areas[k].areaId in at && at[areas[k].areaId] == k)
  }

  method GroupDocs(docs: seq<DocInput>) returns (areas: seq<Area>)
    ensures Groups(docs, areas)
  {
    areas := [];
    var at: map<string, nat> := map[];
    for i := 0 to |docs|
      invariant Groups(docs[..i], areas) && Located(at, areas)
    {
      var d := docs[i];
      var id := AreaIdOf(d);
      assert docs[..i + 1] == docs[..i] + [d];
      if id !in at {
        NewArea(docs[..i], d, areas, at);
        at, areas := at[id := |areas|], areas + [Area(id, d.claims, [d.doc], None)];
      } else {
        var area := areas[at[id]];
        JoinArea(docs[..i], d, areas, at[id]);
        areas := areas[at[id] := area.(docs := area.docs + [d.doc], claims := area.claims + d.claims)];
      }
    }
    assert docs[..|docs|] == docs;
  }

  /** An area holds exactly the documents that belong to it. */
  lemma {:induction false} AreaHoldsItsDocs(docs: seq<DocInput>, areaId: string, doc: string)
    ensures doc in DocsIn(docs, areaId) <==>
              exists i :: 0 <= i < |docs| && docs[i].doc == doc && BelongsTo(docs[i], areaId)
  {
    if docs != [] {
      var front, last := docs[..|docs| - 1], docs[|docs| - 1];
      AreaHoldsItsDocs(front, areaId, doc);
      assert forall i | 0 <= i < |front| :: docs[i] == front[i];
      assert BelongsTo(last, areaId) <==> AreaIdOf(last) == areaId;
    }
  }

  lemma WholeAreaGrows(docs: seq<DocInput>, d: DocInput, areaId: string)
    ensures DocsIn(docs + [d], areaId) == DocsIn(docs, areaId) + (if AreaIdOf(d) == areaId then [d.doc] else [])
    ensures ClaimsIn(docs + [d], areaId) == ClaimsIn(docs, areaId) + (if AreaIdOf(d) == areaId then d.claims else [])
  {
    assert (docs + [d])[..|docs|] == docs;
  }

  lemma {:induction false} NoAreaYet(docs: seq<DocInput>, areaId: string)
    requires forall i | 0 <= i < |docs| :: AreaIdOf(docs[i]) != areaId
    ensures DocsIn(docs, areaId) == [] && ClaimsIn(docs, areaId) == []
  {
    if docs != [] { NoAreaYet(docs[..|docs| - 1], areaId); }
  }

  lemma NewArea(docs: seq<DocInput>, d: DocInput, areas: seq<Area>, at: map<string, nat>)
    requires Groups(docs, areas) && Located(at, areas) && AreaIdOf(d) !in at
    ensures Groups(docs + [d], areas + [Area(AreaIdOf(d), d.claims, [d.doc], None)])
  {
    hide AreaIdOf;
    var id := AreaIdOf(d);
    var wider := areas + [Area(id, d.claims, [d.doc], None)];
    NoAreaYet(docs, id);
    forall k | 0 <= k < |wider|
      ensures wider[k] == WholeArea(docs + [d], wider[k].areaId)
    {
      WholeAreaGrows(docs, d, wider[k].areaId);
    }
    forall i | 0 <= i < |docs + [d]|
      ensures HasArea(wider, AreaIdOf((docs + [d])[i]))
    {
      if i < |docs| { StillHasArea(areas, wider, AreaIdOf(docs[i])); }
      else { assert wider[|areas|].areaId == id; }
    }
  }

  lemma StillHasArea(areas: seq<Area>, wider: seq<Area>, id: string)
    requires HasArea(areas, id) && |areas| <= |wider|
               && forall k | 0 <= k < |areas| :: wider[k].areaId == areas[k].areaId
    ensures HasArea(wider, id)
  {
    var k :| 0 <= k < |areas| && areas[k].areaId == id;
    assert wider[k].areaId == id;
  }

  lemma JoinArea(docs: seq<DocInput>, d: DocInput, areas: seq<Area>, at: nat)
    requires Groups(docs, areas) && at < |areas| && areas[at].areaId == AreaIdOf(d)
    ensures Groups(docs + [d],
                   areas[at := areas[at].(docs := areas[at].docs + [d.doc], claims := areas[at].claims + d.claims)])
  {
    hide AreaIdOf;
    var joined := areas[at := areas[at].(docs := areas[at].docs + [d.doc], claims := areas[at].claims + d.claims)];
    forall k | 0 <= k < |joined|
      ensures joined[k] == WholeArea(docs + [d], joined[k].areaId) && joined[k].areaId == areas[k].areaId
    {
      WholeAreaGrows(docs, d, areas[k].areaId);
    }
    forall i | 0 <= i < |docs + [d]|
      ensures HasArea(joined, AreaIdOf((docs + [d])[i]))
    {
      if i < |docs| { StillHasArea(areas, joined, AreaIdOf(docs[i])); }
      else { assert joined[at].areaId == AreaIdOf(d); }
    }
  }

  // --- Order ------------------------------------------------------------------------------------------

  function InsertArea(sorted: seq<Area>, a: Area, before: (string, string) -> bool): seq<Area> {
    if sorted == [] || before(sorted[|sorted| - 1].areaId, a.areaId) then sorted + [a]
    else InsertArea(sorted[..|sorted| - 1], a, before) + [sorted[|sorted| - 1]]
  }

  /** By area id, under the caller's collation. */
  function SortAreas(areas: seq<Area>, before: (string, string) -> bool): seq<Area> {
    if areas == [] then [] else InsertArea(SortAreas(areas[..|areas| - 1], before), areas[|areas| - 1], before)
  }

  /** The collation is a total preorder, as a comparison used for sorting is. */
  ghost predicate Collates(before: (string, string) -> bool) {
    && (forall a, b :: before(a, b) || before(b, a))
    && (forall a, b, c | before(a, b) && before(b, c) :: before(a, c))
  }

  ghost predicate InOrder(areas: seq<Area>, before: (string, string) -> bool) {
    forall i, j | 0 <= i < j < |areas| :: before(areas[i].areaId, areas[j].areaId)
  }

  lemma {:induction false} InsertAreaAscends(sorted: seq<Area>, a: Area, before: (string, string) -> bool)
    requires Collates(before) && InOrder(sorted, before)
    ensures InOrder(InsertArea(sorted, a, before), before)
  {
    if sorted != [] {
      var front, last := sorted[..|sorted| - 1], sorted[|sorted| - 1];
      if !before(last.areaId, a.areaId) {
        InsertAreaAscends(front, a, before);
        InsertAreaKeeps(front, a, before);
        var inserted := InsertArea(front, a, before);
        forall i | 0 <= i < |inserted|
          ensures before(inserted[i].areaId, last.areaId)
        {
          assert inserted[i] in inserted;
          assert inserted[i] in front || inserted[i] == a;
        }
      } else {
        forall i | 0 <= i < |sorted|
          ensures before(sorted[i].areaId, a.areaId)
        {
          assert i < |front| ==> before(sorted[i].areaId, last.areaId);
        }
      }
    }
  }

  lemma {:induction false} SortAreasAscends(areas: seq<Area>, before: (string, string) -> bool)
    requires Collates(before)
    ensures InOrder(SortAreas(areas, before), before)
  {
    if areas != [] {
      SortAreasAscends(areas[..|areas| - 1], before);
      InsertAreaAscends(SortAreas(areas[..|areas| - 1], before), areas[|areas| - 1], before);
    }
  }

  lemma {:induction false} InsertAreaKeeps(sorted: seq<Area>, a: Area, before: (string, string) -> bool)
    ensures forall x :: x in InsertArea(sorted, a, before) <==> x in sorted || x == a
    ensures DistinctAreas(sorted) && !HasArea(sorted, a.areaId) ==> DistinctAreas(InsertArea(sorted, a, before))
  {
    if !(sorted == [] || before(sorted[|sorted| - 1].areaId, a.areaId)) {
      var front, last := sorted[..|sorted| - 1], sorted[|sorted| - 1];
      InsertAreaKeeps(front, a, before);
      assert sorted == front + [last];
      if DistinctAreas(sorted) && !HasArea(sorted, a.areaId) {
        assert !HasArea(front, a.areaId) && last.areaId != a.areaId;
        var inserted := InsertArea(front, a, before);
        forall k | 0 <= k < |inserted|
          ensures inserted[k].areaId != last.areaId
        {
          assert inserted[k] in inserted;
        }
      }
    }
  }

  lemma {:induction false} SortAreasKeeps(areas: seq<Area>, before: (string, string) -> bool)
    requires DistinctAreas(areas)
    ensures forall x :: x in SortAreas(areas, before) <==> x in areas
    ensures DistinctAreas(SortAreas(areas, before))
  {
    if areas != [] {
      var front, last := areas[..|areas| - 1], areas[|areas| - 1];
      SortAreasKeeps(front, before);
      InsertAreaKeeps(SortAreas(front, before), last, before);
      assert areas == front + [last];
      forall k | 0 <= k < |SortAreas(front, before)|
        ensures SortAreas(front, before)[k].areaId != last.areaId
      {
        assert SortAreas(front, before)[k] in front;
      }
    }
  }

  lemma SortedStillGroups(docs: seq<DocInput>, areas: seq<Area>, before: (string, string) -> bool)
    requires Groups(docs, areas)
    ensures Groups(docs, SortAreas(areas, before))
  {
    var sorted := SortAreas(areas, before);
    SortAreasKeeps(areas, before);
    forall k | 0 <= k < |sorted|
      ensures sorted[k] == WholeArea(docs, sorted[k].areaId)
    {
      assert sorted[k] in areas;
    }
    forall i | 0 <= i < |docs|
      ensures HasArea(sorted, AreaIdOf(docs[i]))
    {
      var k :| 0 <= k < |areas| && areas[k].areaId == AreaIdOf(docs[i]);
      assert areas[k] in sorted;
    }
  }

  // --- Units ------------------------------------------------------------------------------------------

  function UnitsOf(units: seq<Area>, areaId: string): seq<Area> {
    if units == [] then []
    else
      UnitsOf(units[..|units| - 1], areaId) + (if units[|units| - 1].areaId == areaId then [units[|units| - 1]] else [])
  }

  lemma {:induction false} UnitsOfSplits(a: seq<Area>, b: seq<Area>, areaId: string)
    ensures UnitsOf(a + b, areaId) == UnitsOf(a, areaId) + UnitsOf(b, areaId)
  {
    if b == [] { assert a + b == a; }
    else {
      assert (a + b)[..|a + b| - 1] == a + b[..|b| - 1];
      UnitsOfSplits(a, b[..|b| - 1], areaId);
    }
  }

  lemma {:induction false} UnitsOfOwn(units: seq<Area>, areaId: string)
    ensures (forall k | 0 <= k < |units| :: units[k].areaId == areaId) ==> UnitsOf(units, areaId) == units
    ensures (forall k | 0 <= k < |units| :: units[k].areaId != areaId) ==> UnitsOf(units, areaId) == []
  {
    if units != [] {
      var front := units[..|units| - 1];
      UnitsOfOwn(front, areaId);
      assert units == front + [units[|front|]] && forall k | 0 <= k < |front| :: front[k] == units[k];
    }
  }

  /**
   * An area's units, in order, are its documents and its claims, in order; none is over the ceiling for two documents.
   * An area within the ceiling is one unit as it stands; the chunks of one over it are numbered.
   */
  ghost predicate Split(docs: seq<string>, claims: seq<Claim>, units: seq<Area>) {
    && Concat(DocGroups(units)) == docs && Concat(ClaimGroups(units)) == claims
    && (forall k | 0 <= k < |units| :: |units[k].claims| > FLOW_AREA_CLAIM_CEILING ==> |units[k].docs| == 1)
    && (|claims| <= FLOW_AREA_CLAIM_CEILING ==> |units| <= 1 && forall k | 0 <= k < |units| :: units[k].chunk.None?)
    && (|claims| > FLOW_AREA_CLAIM_CEILING ==> forall k | 0 <= k < |units| :: units[k].chunk == Some(k))
  }

  lemma AreaSplits(area: Area, units: seq<Area>)
    requires area.claims == OfDocs(area.claims, area.docs) && area.chunk.None?
    requires if |area.claims| <= FLOW_AREA_CLAIM_CEILING then units == [area] else Shards(area, units)
    ensures Split(area.docs, area.claims, units) && forall k | 0 <= k < |units| :: units[k].areaId == area.areaId
  {
    hide OfDocs, Packed, Concat;
    if |area.claims| <= FLOW_AREA_CLAIM_CEILING {
      assert DocGroups(units) == [] + [area.docs] && ClaimGroups(units) == [] + [area.claims];
      ConcatOneMore([], area.docs);
      ConcatOneMore([], area.claims);
      NothingConcats<string>();
      NothingConcats<Claim>();
    } else { ShardingKeepsClaims(area, units); }
  }

  lemma NothingConcats<T>()
    ensures Concat<T>([]) == []
  {
  }

  /**
   * The work of a run: each area id's units partition that area's documents and claims, in corpus order and without
   * splitting a document.
   */
  method BuildFlowAreas(docs: seq<DocInput>, before: (string, string) -> bool) returns (units: seq<Area>)
    requires OwnClaims(docs)
    ensures forall id :: Split(DocsIn(docs, id), ClaimsIn(docs, id), UnitsOf(units, id))
    ensures DistinctUnits(units)
    ensures Collates(before) ==> InOrder(units, before)
  {
    hide Split, OfDocs, Shards, UnitsOf, OwnClaims, DistinctUnits, Collates, InOrder;
    var grouped := GroupDocs(docs);
    SortedStillGroups(docs, grouped, before);
    var areas := SortAreas(grouped, before);
    if Collates(before) { SortAreasAscends(grouped, before); }
    units := [];
    NothingIn();
    NoneOutOfOrder(before);
    for n := 0 to |areas|
      invariant forall k | 0 <= k < n :: Split(areas[k].docs, areas[k].claims, UnitsOf(units, areas[k].areaId))
      invariant forall id | !HasArea(areas[..n], id) :: UnitsOf(units, id) == []
      invariant Collates(before) ==> InOrder(units, before)
      invariant forall k | 0 <= k < |units| :: HasArea(areas[..n], units[k].areaId)
    {
      AreaStandsByDoc(docs, areas[n].areaId);
      assert areas[n] == WholeArea(docs, areas[n].areaId);
      var chunks := ShardArea(areas[n]);
      AreaSplits(areas[n], chunks);
      AppendUnits(areas, n, units, chunks);
      if Collates(before) { UnitsStayInOrder(areas, n, units, chunks, before); }
      UnitsStayListed(areas, n, units, chunks);
      units := units + chunks;
    }
    assert areas[..|areas|] == areas;
    EveryAreaSplits(docs, areas, units);
    BuiltUnitsAreDistinct(docs, units);
  }

  lemma NoneOutOfOrder(before: (string, string) -> bool)
    ensures InOrder([], before)
  {
  }

  lemma UnitsStayInOrder(areas: seq<Area>, n: nat, units: seq<Area>, chunks: seq<Area>,
                         before: (string, string) -> bool)
    requires n < |areas| && Collates(before) && InOrder(areas, before) && InOrder(units, before)
    requires forall k | 0 <= k < |units| :: HasArea(areas[..n], units[k].areaId)
    requires forall k | 0 <= k < |chunks| :: chunks[k].areaId == areas[n].areaId
    ensures InOrder(units + chunks, before)
  {
    forall k | 0 <= k < |units|
      ensures before(units[k].areaId, areas[n].areaId)
    {
      var m :| 0 <= m < n && areas[..n][m].areaId == units[k].areaId;
      assert areas[m].areaId == units[k].areaId;
    }
  }

  lemma UnitsStayListed(areas: seq<Area>, n: nat, units: seq<Area>, chunks: seq<Area>)
    requires n < |areas|
    requires forall k | 0 <= k < |units| :: HasArea(areas[..n], units[k].areaId)
    requires forall k | 0 <= k < |chunks| :: chunks[k].areaId == areas[n].areaId
    ensures forall k | 0 <= k < |units + chunks| :: HasArea(areas[..n + 1], (units + chunks)[k].areaId)
  {
    assert areas[..n + 1][n] == areas[n];
    forall k | 0 <= k < |units + chunks|
      ensures HasArea(areas[..n + 1], (units + chunks)[k].areaId)
    {
      if k < |units| { StillHasArea(areas[..n], areas[..n + 1], units[k].areaId); }
    }
  }

  lemma EveryAreaSplits(docs: seq<DocInput>, areas: seq<Area>, units: seq<Area>)
    requires Groups(docs, areas)
    requires forall k | 0 <= k < |areas| :: Split(areas[k].docs, areas[k].claims, UnitsOf(units, areas[k].areaId))
    requires forall id | !HasArea(areas, id) :: UnitsOf(units, id) == []
    ensures forall id :: Split(DocsIn(docs, id), ClaimsIn(docs, id), UnitsOf(units, id))
  {
    hide Split, UnitsOf;
    forall id
      ensures Split(DocsIn(docs, id), ClaimsIn(docs, id), UnitsOf(units, id))
    {
      if HasArea(areas, id) {
        var k :| 0 <= k < |areas| && areas[k].areaId == id;
        assert areas[k] == WholeArea(docs, id);
      } else {
        NoAreaYet(docs, id);
        NothingSplits();
      }
    }
  }

  lemma NothingIn()
    ensures forall id :: UnitsOf([], id) == []
  {
  }

  lemma NothingSplits()
    ensures Split([], [], [])
  {
  }

  lemma AppendUnits(areas: seq<Area>, n: nat, units: seq<Area>, chunks: seq<Area>)
    requires n < |areas| && DistinctAreas(areas)
    requires forall k | 0 <= k < n :: Split(areas[k].docs, areas[k].claims, UnitsOf(units, areas[k].areaId))
    requires forall id | !HasArea(areas[..n], id) :: UnitsOf(units, id) == []
    requires Split(areas[n].docs, areas[n].claims, chunks)
               && forall k | 0 <= k < |chunks| :: chunks[k].areaId == areas[n].areaId
    ensures forall k | 0 <= k < n + 1 :: Split(areas[k].docs, areas[k].claims, UnitsOf(units + chunks, areas[k].areaId))
    ensures forall id | !HasArea(areas[..n + 1], id) :: UnitsOf(units + chunks, id) == []
  {
    hide Split, UnitsOf;
    forall id
      ensures UnitsOf(units + chunks, id) == UnitsOf(units, id) + (if id == areas[n].areaId then chunks else [])
    {
      UnitsOfSplits(units, chunks, id);
      UnitsOfOwn(chunks, id);
    }
    assert !HasArea(areas[..n], areas[n].areaId);
    forall k | 0 <= k < n + 1
      ensures Split(areas[k].docs, areas[k].claims, UnitsOf(units + chunks, areas[k].areaId))
    {
      if k < n { assert UnitsOf(units + chunks, areas[k].areaId) == UnitsOf(units, areas[k].areaId); }
      else { assert UnitsOf(units + chunks, areas[n].areaId) == [] + chunks == chunks; }
    }
    forall id | !HasArea(areas[..n + 1], id)
      ensures UnitsOf(units + chunks, id) == []
    {
      assert areas[..n + 1][n] == areas[n];
      assert forall k | 0 <= k < n :: areas[..n][k] == areas[..n + 1][k];
    }
  }

  // --- Keys ---------------------------------------------------------------------------------------------

  lemma {:induction false} DecimalHasNoHash(n: nat)
    ensures '#' !in Decimal(n)
  {
    if n >= 10 { DecimalHasNoHash(n / 10); }
  }

  lemma LastHash(a: string, i: nat)
    ensures var key := a + "#" + Decimal(i); forall p | |a| < p < |key| :: key[p] != '#'
  {
    DecimalHasNoHash(i);
    var key := a + "#" + Decimal(i);
    forall p | |a| < p < |key|
      ensures key[p] != '#'
    {
      assert key[p] == Decimal(i)[p - |a| - 1];
    }
  }

  /** A suffixed key has one reading. */
  lemma SuffixedKeysDiffer(a: string, i: nat, b: string, j: nat)
    requires a + "#" + Decimal(i) == b + "#" + Decimal(j)
    ensures a == b && i == j
  {
    var key := a + "#" + Decimal(i);
    LastHash(a, i);
    LastHash(b, j);
    assert key[|a|] == '#' && key[|b|] == '#';
    assert |a| == |b|;
    assert key[|a| + 1..] == Decimal(i) && key[|b| + 1..] == Decimal(j);
    assert key[..|a|] == a && key[..|b|] == b;
    DecimalIsInjective(i, j);
  }

  /** No unit comes twice. */
  ghost predicate DistinctUnits(units: seq<Area>) {
    forall i, j | 0 <= i < j < |units| :: units[i].areaId != units[j].areaId || units[i].chunk != units[j].chunk
  }

  /** An unsharded area is named like some chunk. */
  ghost predicate NamedLikeChunk(units: seq<Area>) {
    exists i, j :: 0 <= i < |units| && 0 <= j < |units| && units[i].chunk.None? && units[j].chunk.Some?
        && units[i].areaId == AreaKey(units[j])
  }

  /** Keys tell the units apart exactly when no unsharded area is named like a chunk of a sharded one. */
  lemma KeysTellApartExactlyWhen(units: seq<Area>)
    requires DistinctUnits(units)
    ensures DistinctKeys(units) <==> !NamedLikeChunk(units)
  {
    if NamedLikeChunk(units) {
      var i, j :| 0 <= i < |units| && 0 <= j < |units| && units[i].chunk.None? && units[j].chunk.Some?
          && units[i].areaId == AreaKey(units[j]);
      assert AreaKey(units[i]) == AreaKey(units[j]) && i != j;
    }
    if !NamedLikeChunk(units) {
      forall i, j | 0 <= i < j < |units|
        ensures AreaKey(units[i]) != AreaKey(units[j])
      {
        if AreaKey(units[i]) == AreaKey(units[j]) && units[i].chunk.Some? && units[j].chunk.Some? {
          SuffixedKeysDiffer(units[i].areaId, units[i].chunk.value, units[j].areaId, units[j].chunk.value);
        }
      }
    }
  }

  lemma {:induction false} UnitsOfHas(units: seq<Area>, i: nat, j: nat, id: string)
    requires i < j < |units| && units[i].areaId == units[j].areaId == id
    ensures exists a, b ::
              0 <= a < b < |UnitsOf(units, id)| && UnitsOf(units, id)[a] == units[i]
                  && UnitsOf(units, id)[b] == units[j]
  {
    var front := units[..j];
    UnitHas(front, i, id);
    var a :| 0 <= a < |UnitsOf(front, id)| && UnitsOf(front, id)[a] == units[i];
    assert units == units[..j + 1] + units[j + 1..] && units[..j + 1][..j] == front;
    UnitsOfSplits(units[..j + 1], units[j + 1..], id);
    assert UnitsOf(units, id)[a] == units[i] && UnitsOf(units, id)[|UnitsOf(front, id)|] == units[j];
  }

  lemma {:induction false} UnitHas(units: seq<Area>, i: nat, id: string)
    requires i < |units| && units[i].areaId == id
    ensures exists a :: 0 <= a < |UnitsOf(units, id)| && UnitsOf(units, id)[a] == units[i]
  {
    if i < |units| - 1 {
      UnitHas(units[..|units| - 1], i, id);
      var a :| 0 <= a < |UnitsOf(units[..|units| - 1], id)| && UnitsOf(units[..|units| - 1], id)[a] == units[i];
      assert UnitsOf(units, id)[a] == units[i];
    } else {
      assert UnitsOf(units, id)[|UnitsOf(units, id)| - 1] == units[i];
    }
  }

  /** The units `BuildFlowAreas` makes never come twice, whatever the areas are called. */
  lemma BuiltUnitsAreDistinct(docs: seq<DocInput>, units: seq<Area>)
    requires forall id :: Split(DocsIn(docs, id), ClaimsIn(docs, id), UnitsOf(units, id))
    ensures DistinctUnits(units)
  {
    forall i, j | 0 <= i < j < |units|
      ensures units[i].areaId != units[j].areaId || units[i].chunk != units[j].chunk
    {
      if units[i].areaId == units[j].areaId {
        var id := units[i].areaId;
        UnitsOfHas(units, i, j, id);
        assert Split(DocsIn(docs, id), ClaimsIn(docs, id), UnitsOf(units, id));
      }
    }
  }

  // --- A corpus whose keys collide -------------------------------------------------------------------------

  lemma {:induction false} UnitsOfAre(units: seq<Area>, id: string, k: nat) returns (i: nat)
    requires k < |UnitsOf(units, id)|
    ensures i < |units| && units[i] == UnitsOf(units, id)[k] && units[i].areaId == id
  {
    var front := units[..|units| - 1];
    if k < |UnitsOf(front, id)| { i := UnitsOfAre(front, id, k); } else { i := |front|; }
  }

  lemma SomethingConcatenated<T>(groups: seq<seq<T>>)
    ensures Concat(groups) != [] ==> groups != []
  {
  }

  /** Wherever an area is over the ceiling and a small one is named like its first chunk, two units share a key. */
  lemma ChunkNamesakeSharesKey(docs: seq<DocInput>, units: seq<Area>, id: string)
    requires DistinctUnits(units) && forall id :: Split(DocsIn(docs, id), ClaimsIn(docs, id), UnitsOf(units, id))
    requires |ClaimsIn(docs, id)| > FLOW_AREA_CLAIM_CEILING
    requires DocsIn(docs, id + "#0") != [] && |ClaimsIn(docs, id + "#0")| <= FLOW_AREA_CLAIM_CEILING
    ensures !DistinctKeys(units)
  {
    hide Concat, UnitsOf, DistinctUnits, DistinctKeys;
    var chunks, namesakes := UnitsOf(units, id), UnitsOf(units, id + "#0");
    assert Split(DocsIn(docs, id), ClaimsIn(docs, id), chunks);
    assert Split(DocsIn(docs, id + "#0"), ClaimsIn(docs, id + "#0"), namesakes);
    SomethingConcatenated(ClaimGroups(chunks));
    SomethingConcatenated(DocGroups(namesakes));
    var j := UnitsOfAre(units, id, 0);
    var i := UnitsOfAre(units, id + "#0", 0);
    assert Decimal(0) == "0" && id + "#" + "0" == id + "#0";
    assert units[i].areaId == AreaKey(units[j]);
    KeysTellApartExactlyWhen(units);
  }

  const MANY: seq<Claim> := seq(201, i requires 0 <= i < 201 => Claim("a.md#" + Decimal(i), "a.md", "t", ["s"]))
  const FEW: seq<Claim> := [Claim("a.md#0#0", "a.md#0", "t", ["s"])]
  const UNTAGGED: seq<DocInput> := [DocInput("a.md", [], MANY), DocInput("a.md#0", [], FEW)]

  /** Such a corpus: two untagged documents, one of 201 claims, the other named like its first chunk. */
  method ChunkNamesake(before: (string, string) -> bool) returns (units: seq<Area>)
    ensures exists i, j :: 0 <= i < |units| && 0 <= j < |units| && i != j && AreaKey(units[i]) == AreaKey(units[j])
  {
    UntaggedCounts();
    units := BuildFlowAreas(UNTAGGED, before);
    ChunkNamesakeSharesKey(UNTAGGED, units, "doc:a.md");
  }

  lemma UntaggedCounts()
    ensures OwnClaims(UNTAGGED) && |ClaimsIn(UNTAGGED, "doc:a.md")| == 201 && "doc:a.md" + "#0" == "doc:a.md#0"
    ensures DocsIn(UNTAGGED, "doc:a.md#0") == ["a.md#0"] && ClaimsIn(UNTAGGED, "doc:a.md#0") == FEW
  {
    assert "doc:" + "a.md" == "doc:a.md" && "doc:" + "a.md#0" == "doc:a.md#0" && |"doc:a.md"| != |"doc:a.md#0"|;
    assert AreaIdOf(UNTAGGED[0]) == "doc:a.md" && AreaIdOf(UNTAGGED[1]) == "doc:a.md#0";
    assert UNTAGGED == [UNTAGGED[0], UNTAGGED[1]];
    TwoDocs(UNTAGGED[0], UNTAGGED[1], "doc:a.md");
    TwoDocs(UNTAGGED[0], UNTAGGED[1], "doc:a.md#0");
    assert |"a.md"| != |"a.md#0"|;
  }

  lemma TwoDocs(a: DocInput, b: DocInput, id: string)
    ensures DocsIn([a, b], id) ==
              (if AreaIdOf(a) == id then [a.doc] else []) + (if AreaIdOf(b) == id then [b.doc] else [])
    ensures ClaimsIn([a, b], id) ==
              (if AreaIdOf(a) == id then a.claims else []) + (if AreaIdOf(b) == id then b.claims else [])
  {
    hide AreaIdOf;
    var none: seq<DocInput> := [];
    assert [a, b][..1] == [a] && [a][..0] == none;
    assert DocsIn(none, id) == [] && ClaimsIn(none, id) == [];
    assert DocsIn([a], id) == (if AreaIdOf(a) == id then [a.doc] else [])
        && ClaimsIn([a], id) == (if AreaIdOf(a) == id then a.claims else []);
  }

  // --- What sharing a key does to the fold -----------------------------------------------------------------------

  /**
   * Units of one key stand or fall by one session value; without it each committed flow of the key is carried twice.
   */
  lemma {:induction false} SharedKeyCarriesTwice(input: Inputs, outcomes: Outcomes, n: nat, i: nat, j: nat, f: Flow)
    requires i < j < n <= |outcomes| == |input.areas| && AreaKey(input.areas[i]) == AreaKey(input.areas[j])
    requires outcomes[i].None? && outcomes[j].None? && f in input.previous
    requires PlaceOf(f, input.areas) == Unit(AreaKey(input.areas[j]))
    ensures !DistinctIds(CarriedFlows(input, outcomes, n))
  {
    hide PlaceOf, Placed, AreaKey;
    var front := CarriedFlows(input, outcomes, n - 1);
    if j < n - 1 {
      SharedKeyCarriesTwice(input, outcomes, n - 1, i, j, f);
      var p, q :| 0 <= p < q < |front| && front[p].id == front[q].id;
      assert CarriedFlows(input, outcomes, n)[p].id == CarriedFlows(input, outcomes, n)[q].id;
    } else {
      CarriedAre(input, outcomes, n - 1);
      PlacedAre(input.previous, input.areas, Unit(AreaKey(input.areas[j])));
      var last := Placed(input.previous, input.areas, Unit(AreaKey(input.areas[j])));
      var p :| 0 <= p < |front| && front[p] == f;
      var q :| 0 <= q < |last| && last[q] == f;
      assert CarriedFlows(input, outcomes, n)[|front| + q] == f && CarriedFlows(input, outcomes, n)[p] == f;
    }
  }
}
