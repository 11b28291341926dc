/**
 * The catalog's pages (packages/guard-generator/src/author-catalog.ts: `page`, `get`, `definitions`), as the texts they
 * render to. Items arrive rendered; a continuation cursor is the base64url text of a small JSON object, of which only
 * the round trip and the length law are used.
 */
module CatalogPaging {
  import opened Common
  import opened Text
  import opened AuthorCatalog

  /** `encode` writes a cursor's JSON; `read` parses what a caller sends back. */
  datatype Codec = Codec(encode: string -> string, read: string -> Option<Cursor>)
  datatype Cursor = Cursor(key: string, offset: int)

  /** One request's data: its snapshot key, its rendered items, and, for actions, where each one's items end. */
  datatype Request = Request(key: string, items: seq<string>, ends: Option<seq<ActionEnd>>)
  datatype ActionEnd = ActionEnd(rendered: string, end: nat)

  datatype Page = Served(start: nat, end: nat, content: string, next: Option<string>) | Failed(code: string)

  // --- Rendering ----------------------------------------------------------------------

  const HEAD := "{\"snapshot\":\""
  const TOTAL := "\",\"total\":"
  const OFFSET := ",\"offset\":"
  const ITEMS := ",\"items\":["
  const ACTIONS := ",\"actionCompleteIds\":["
  const COMPLETE := ",\"complete\":"
  const OMITTED := ",\"omittedFields\":["
  const REMAINING := "\"remaining items; continue with nextCursor\""
  const NEXT := ",\"nextCursor\":\""
  const KEY := "{\"key\":\""
  const KEY_OFFSET := "\",\"offset\":"

  function Commas(texts: seq<string>): string {
    if texts == [] then ""
    else if |texts| == 1 then texts[0] else Commas(texts[..|texts| - 1]) + "," + texts[|texts| - 1]
  }

  function CursorJson(key: string, offset: nat): string { KEY + key + KEY_OFFSET + Decimal(offset) + "}" }

  /** The actions whose items all lie before `end`. */
  function DoneBy(ends: seq<ActionEnd>, end: nat): seq<string> {
    if ends == [] then []
    else DoneBy(ends[..|ends| - 1], end) + (if ends[|ends| - 1].end <= end then [ends[|ends| - 1].rendered] else [])
  }

  function Metadata(request: Request, end: nat): string {
    if request.ends.None? then "" else ACTIONS + Commas(DoneBy(request.ends.value, end)) + "]"
  }

  function Tail(codec: Codec, request: Request, end: nat): string {
    if end < |request.items|
    then COMPLETE + "false" + OMITTED + REMAINING + "]" + NEXT + codec.encode(CursorJson(request.key, end)) + "\"}"
    else COMPLETE + "true" + OMITTED + "]}"
  }

  /** The page holding items [start, end). */
  function Render(codec: Codec, request: Request, start: nat, end: nat): string
    requires start <= end <= |request.items|
  {
    HEAD + request.key + TOTAL + Decimal(|request.items|) + OFFSET + Decimal(start) + ITEMS
    + Commas(request.items[start..end]) + "]" + Metadata(request, end) + Tail(codec, request, end)
  }

  lemma CommasSeparate(texts: seq<string>, last: string)
    ensures Commas([]) == "" && Commas([last]) == last
    ensures texts != [] ==> Commas(texts + [last]) == Commas(texts) + "," + last
  {
    assert (texts + [last])[..|texts|] == texts;
  }

  /**
   * What a page says: the snapshot it is of, where it starts and of how many, its items, the actions complete by its
   * end, and either that it is complete or that items remain, with the cursor to them.
   */
  lemma PageReads(codec: Codec, request: Request, start: nat, end: nat)
    requires start <= end <= |request.items|
    ensures Render(codec, request, start, end) ==
            "{\"snapshot\":\"" + request.key + "\",\"total\":" + Decimal(|request.items|)
            + ",\"offset\":" + Decimal(start) + ",\"items\":[" + Commas(request.items[start..end]) + "]"
            + (if request.ends.None? then ""
               else ",\"actionCompleteIds\":[" + Commas(DoneBy(request.ends.value, end)) + "]")
            + (if end == |request.items| then ",\"complete\":" + "true" + ",\"omittedFields\":[" + "]}"
               else ",\"complete\":" + "false" + ",\"omittedFields\":["
                    + "\"remaining items; continue with nextCursor\"" + "]" + ",\"nextCursor\":\""
                    + codec.encode("{\"key\":\"" + request.key + "\",\"offset\":" + Decimal(end) + "}") + "\"}")
  {
    hide Decimal, Commas, DoneBy;
  }

  // --- A page -------------------------------------------------------------------------

  datatype Start = From(offset: nat) | Refused

  /** An absent cursor starts at the first item; any other must be one issued for exactly this request. */
  function StartOf(codec: Codec, request: Request, cursor: string): Start {
    if cursor == "" then From(0)
    else
      var read := codec.read(cursor);
      if read.Some? && read.value.key == request.key && 0 <= read.value.offset < |request.items|
      then From(read.value.offset)
      else Refused
  }

  /** A page is served exactly from the start, or from the offset of a cursor that is this request's and in range. */
  lemma StartOfExactly(codec: Codec, request: Request, cursor: string, offset: nat)
    ensures StartOf(codec, request, cursor) == From(offset) <==>
              if cursor == "" then offset == 0
              else codec.read(cursor) == Some(Cursor(request.key, offset)) && offset < |request.items|
  {
  }

  /** A cursor issued for any other data, projection or ids is refused. */
  lemma ForeignCursorRefused(codec: Codec, request: Request, other: Request, offset: nat)
    requires Faithful(codec, other.key) && offset < 0x1_0000_0000 && other.key != request.key
    ensures StartOf(codec, request, codec.encode(CursorJson(other.key, offset))).Refused?
  {
    assert codec.read(codec.encode(CursorJson(other.key, offset))) == Some(Cursor(other.key, offset));
  }

  predicate Overlong(codec: Codec, request: Request, start: nat, end: nat)
    requires start <= end <= |request.items|
  {
    |Render(codec, request, start, end)| > AUTHOR_TOOL_RESULT_CHARS
  }

  /** Item `n` is too long for a page of its own. */
  predicate TooLongAlone(codec: Codec, request: Request, n: nat)
    requires n < |request.items|
  {
    Overlong(codec, request, n, n + 1)
  }

  predicate WithinLimit(limit: Option<nat>, n: nat) { limit.None? || n < limit.value }

  /** What a served page must be: as many items as fit and as were asked for, and a cursor to the rest. */
  ghost predicate ServesFrom(codec: Codec, request: Request, limit: Option<nat>, start: nat, page: Page) {
    match page
    case Failed(code) =>
      && code == "oversized-indivisible-field" && start < |request.items| && WithinLimit(limit, 0)
      && Overlong(codec, request, start, start + 1)
    case Served(from, end, content, next) =>
      && from == start <= end <= |request.items| && content == Render(codec, request, start, end)
      && (forall k | start < k <= end :: !Overlong(codec, request, start, k))
      && (end < |request.items| && WithinLimit(limit, end - start) ==>
          end > start && Overlong(codec, request, start, end + 1))
      && (limit.Some? ==> end - start <= limit.value)
      && next == if end < |request.items| then Some(codec.encode(CursorJson(request.key, end))) else None
  }

  method ReadPage(codec: Codec, request: Request, limit: Option<nat>, cursor: string) returns (page: Page)
    ensures StartOf(codec, request, cursor).Refused? ==> page == Failed("invalid-or-stale-cursor")
    ensures StartOf(codec, request, cursor).From? ==>
              ServesFrom(codec, request, limit, StartOf(codec, request, cursor).offset, page)
  {
    hide Render;
    var at := StartOf(codec, request, cursor);
    if at.Refused? { return Failed("invalid-or-stale-cursor"); }
    var start := at.offset;
    var n := start;
    while n < |request.items| && WithinLimit(limit, n - start)
      invariant start <= n <= |request.items| && (limit.Some? ==> n - start <= limit.value)
      invariant forall k | start < k <= n :: !Overlong(codec, request, start, k)
      decreases |request.items| - n
    {
      if |Render(codec, request, start, n + 1)| > AUTHOR_TOOL_RESULT_CHARS {
        if n == start { return Failed("oversized-indivisible-field"); }
        break;
      }
      n := n + 1;
    }
    page := Served(start, n, Render(codec, request, start, n),
                   if n < |request.items| then Some(codec.encode(CursorJson(request.key, n))) else None);
  }

  /** What `search`, `get` and the definition readers take for a cursor. */
  const MAX_CURSOR_CHARS: nat := 1000

  // --- Lengths -----------------------------------------------------------------------------

  /** Base64url of JSON: for any offset an array has, what was encoded reads back, and four characters carry three. */
  ghost predicate Faithful(codec: Codec, key: string) {
    forall offset: nat | offset < 0x1_0000_0000 ::
      && codec.encode(CursorJson(key, offset)) != ""
      && codec.read(codec.encode(CursorJson(key, offset))) == Some(Cursor(key, offset))
      && 3 * |codec.encode(CursorJson(key, offset))| <= 4 * |CursorJson(key, offset)| + 2
  }

  /** A key is a SHA-256 in hex; an array has fewer than 2^32 items; at most five short ids are asked for. */
  ghost predicate Ordinary(request: Request) {
    && |request.key| == 64 && |request.items| < 0x1_0000_0000
    && (request.ends.Some? ==>
        |request.ends.value| <= 5
            && forall i | 0 <= i < |request.ends.value| :: |request.ends.value[i].rendered| <= 202)
  }

  function Power10(k: nat): nat { if k == 0 then 1 else 10 * Power10(k - 1) }

  lemma {:induction false} DecimalLength(n: nat, k: nat)
    requires k > 0 && n < Power10(k)
    ensures |Decimal(n)| <= k
  {
    if n >= 10 {
      assert Power10(k) == 10 * Power10(k - 1);
      DecimalLength(n / 10, k - 1);
    }
  }

  lemma TenDigits(n: nat)
    requires n < 0x1_0000_0000
    ensures |Decimal(n)| <= 10
  {
    assert Power10(2) == 100 && Power10(4) == 10000 && Power10(6) == 1000000 && Power10(8) == 100000000
        && Power10(10) == 10000000000;
    DecimalLength(n, 10);
  }

  lemma {:induction false} CommasLength(texts: seq<string>, each: nat)
    requires forall i | 0 <= i < |texts| :: |texts[i]| <= each
    ensures |Commas(texts)| <= |texts| * (each + 1)
  {
    if |texts| > 1 {
      var front := texts[..|texts| - 1];
      CommasLength(front, each);
      assert |texts| * (each + 1) == |front| * (each + 1) + (each + 1);
    }
  }

  lemma {:induction false} DoneByFew(ends: seq<ActionEnd>, end: nat)
    ensures |DoneBy(ends, end)| <= |ends|
    ensures forall text | text in DoneBy(ends, end) :: exists i :: 0 <= i < |ends| && ends[i].rendered == text
  {
    if ends != [] { DoneByFew(ends[..|ends| - 1], end); }
  }

  lemma MetadataLength(request: Request, end: nat)
    requires Ordinary(request)
    ensures |Metadata(request, end)| <= 1038
  {
    if request.ends.Some? {
      var done := DoneBy(request.ends.value, end);
      DoneByFew(request.ends.value, end);
      forall i | 0 <= i < |done|
        ensures |done[i]| <= 202
      {
        assert done[i] in done;
      }
      CommasLength(done, 202);
      assert |done| * 203 <= 5 * 203;
      ActionsLength();
    }
  }

  lemma ActionsLength()
    ensures |ACTIONS| == 22
  {
  }

  lemma CursorLength(key: string, offset: nat)
    requires |key| == 64 && offset < 0x1_0000_0000
    ensures |CursorJson(key, offset)| <= 94
  {
    TenDigits(offset);
  }

  lemma TailPieces()
    ensures |COMPLETE| == 12 && |OMITTED| == 18 && |REMAINING| <= 48 && |NEXT| == 15
  {
  }

  lemma TailLength(codec: Codec, request: Request, end: nat)
    requires Ordinary(request) && Faithful(codec, request.key) && end <= |request.items|
    ensures |Tail(codec, request, end)| <= 12 + 5 + 18 + 48 + 1 + 15 + 126 + 2
  {
    CursorLength(request.key, end);
    TailPieces();
    hide CursorJson;
  }

  lemma HeadPieces()
    ensures |HEAD| == 13 && |TOTAL| == 10 && |OFFSET| == 10 && |ITEMS| == 10
  {
  }

  /** A page's text is its items' and at most 1,500 characters around them. */
  lemma PageLength(codec: Codec, request: Request, start: nat, end: nat)
    requires Ordinary(request) && Faithful(codec, request.key) && start <= end <= |request.items|
    ensures |Render(codec, request, start, end)| <= |Commas(request.items[start..end])| + 1500
  {
    hide Tail, Metadata, Commas, Faithful;
    HeadPieces();
    TenDigits(|request.items|);
    TenDigits(start);
    MetadataLength(request, end);
    TailLength(codec, request, end);
  }

  /** An item within the compact limit is never too long for a page of its own. */
  lemma CompactItemFits(codec: Codec, request: Request, n: nat)
    requires Ordinary(request) && Faithful(codec, request.key) && n < |request.items|
    requires |request.items[n]| <= 10_000
    ensures !TooLongAlone(codec, request, n)
  {
    PageLength(codec, request, n, n + 1);
    assert request.items[n..n + 1] == [request.items[n]];
  }

  /** Every page served is within the tool's limit, an empty one included. */
  lemma ServedIsBounded(codec: Codec, request: Request, limit: Option<nat>, start: nat, page: Page)
    requires Ordinary(request) && Faithful(codec, request.key) && start <= |request.items|
    requires ServesFrom(codec, request, limit, start, page) && page.Served?
    ensures |page.content| <= 12_000
  {
    hide Render;
    if page.end == start {
      PageLength(codec, request, start, start);
      assert request.items[start..start] == [];
    } else { assert !Overlong(codec, request, start, page.end); }
  }

  // --- Following the cursor -----------------------------------------------------------------

  /**
   * A cursor a page issued is short enough to be taken, accepted for the same request, and starts where the page ended.
   */
  lemma IssuedCursorAccepted(codec: Codec, request: Request, limit: Option<nat>, start: nat, page: Page)
    requires Ordinary(request) && Faithful(codec, request.key) && start <= |request.items|
    requires ServesFrom(codec, request, limit, start, page) && page.Served? && page.next.Some?
    ensures StartOf(codec, request, page.next.value) == From(page.end) && page.end < |request.items|
    ensures |page.next.value| <= 1_000
    ensures WithinLimit(limit, 0) ==> page.end > start
  {
    hide Render;
    CursorLength(request.key, page.end);
    hide CursorJson;
  }

  lemma {:induction false} CommasAtLeast(texts: seq<string>)
    requires texts != []
    ensures |Commas(texts)| >= |texts[|texts| - 1]| + |texts| - 1
  {
    if |texts| > 1 { CommasAtLeast(texts[..|texts| - 1]); }
  }

  lemma {:induction false} DecimalGrowth(n: nat, more: nat)
    ensures |Decimal(n + more)| <= |Decimal(n)| + more
  {
    if more > 0 {
      DecimalGrowth(n, more - 1);
      NextDecimal(n + more - 1);
    }
  }

  lemma {:induction false} NextDecimal(n: nat)
    ensures |Decimal(n + 1)| <= |Decimal(n)| + 1
  {
    if n >= 10 && (n + 1) / 10 != n / 10 { NextDecimal(n / 10); }
  }

  /** An item that fits behind others fits alone. */
  lemma AloneIsShorter(codec: Codec, request: Request, start: nat, n: nat)
    requires start <= n < |request.items| && !Overlong(codec, request, start, n + 1)
    ensures !TooLongAlone(codec, request, n)
  {
    hide Tail, Metadata, Decimal, Commas;
    CommasAtLeast(request.items[start..n + 1]);
    DecimalGrowth(start, n - start);
    assert request.items[n..n + 1] == [request.items[n]];
    OneText(request.items[n]);
  }

  lemma OneText(text: string)
    ensures Commas([text]) == text
  {
  }

  /**
   * Following the cursor to the end delivers every item once, in order; or it stops before the first item that is too
   * long alone, and then only.
   */
  method ReadAll(codec: Codec, request: Request, limit: Option<nat>) returns (delivered: seq<string>, failed: bool)
    requires Ordinary(request) && Faithful(codec, request.key) && WithinLimit(limit, 0)
    ensures delivered <= request.items && forall n | 0 <= n < |delivered| :: !TooLongAlone(codec, request, n)
    ensures !failed ==> delivered == request.items
    ensures failed ==> |delivered| < |request.items| && TooLongAlone(codec, request, |delivered|)
  {
    hide Render, Overlong, Faithful, CursorJson, Ordinary;
    delivered := [];
    var cursor := "";
    ghost var start := 0;
    while true
      invariant start <= |request.items| && delivered == request.items[..start]
      invariant StartOf(codec, request, cursor) == From(start)
      invariant forall n | 0 <= n < start :: !TooLongAlone(codec, request, n)
      invariant start == 0 || start < |request.items|
      decreases |request.items| - start
    {
      var page := ReadPage(codec, request, limit, cursor);
      if page.Failed? { return delivered, true; }
      forall n | start <= n < page.end
        ensures !TooLongAlone(codec, request, n)
      {
        AloneIsShorter(codec, request, start, n);
      }
      delivered := delivered + request.items[page.start..page.end];
      assert delivered == request.items[..page.end];
      if page.next.None? { return delivered, false; }
      IssuedCursorAccepted(codec, request, limit, start, page);
      cursor, start := page.next.value, page.end;
    }
  }

  // --- Actions before resources ---------------------------------------------------------------

  function Flatten(groups: seq<seq<string>>): seq<string> {
    if groups == [] then [] else Flatten(groups[..|groups| - 1]) + groups[|groups| - 1]
  }

  /** Every requested action's items, in request order, then the resources'. */
  method Assemble(ids: seq<string>, actions: seq<seq<string>>, resources: seq<seq<string>>)
      returns (items: seq<string>, ends: seq<ActionEnd>)
    requires |ids| == |actions|
    ensures items == Flatten(actions) + Flatten(resources)
    ensures |ends| == |ids| && forall a | 0 <= a < |ids| :: ends[a] == ActionEnd(ids[a], |Flatten(actions[..a + 1])|)
  {
    items, ends := [], [];
    for a := 0 to |ids|
      invariant items == Flatten(actions[..a]) && |ends| == a
      invariant forall b | 0 <= b < a :: ends[b] == ActionEnd(ids[b], |Flatten(actions[..b + 1])|)
    {
      assert actions[..a + 1][..a] == actions[..a];
      items := items + actions[a];
      ends := ends + [ActionEnd(ids[a], |items|)];
    }
    assert actions[..|actions|] == actions;
    for r := 0 to |resources|
      invariant items == Flatten(actions) + Flatten(resources[..r])
    {
      assert resources[..r + 1][..r] == resources[..r];
      items := items + resources[r];
    }
    assert resources[..|resources|] == resources;
  }

  lemma {:induction false} DoneByAre(ends: seq<ActionEnd>, end: nat, text: string)
    ensures text in DoneBy(ends, end) <==> exists a :: 0 <= a < |ends| && ends[a].rendered == text && ends[a].end <= end
  {
    if ends != [] {
      var front, last := ends[..|ends| - 1], ends[|ends| - 1];
      DoneByAre(front, end, text);
      assert forall a | 0 <= a < |front| :: ends[a] == front[a];
      if exists a :: 0 <= a < |ends| && ends[a].rendered == text && ends[a].end <= end {
        var a :| 0 <= a < |ends| && ends[a].rendered == text && ends[a].end <= end;
        assert a < |front| ==> front[a].rendered == text;
      }
    }
  }

  // --- Serving definitions ----------------------------------------------------------------------

  /** A definition to serve under an id: an interface, or one of its resources. */
  datatype Definition = Definition(id: string, path: seq<Place>, value: Json)

  /** How one item of a definition is rendered. */
  type Renderer = (string, Item) -> string

  predicate IsCompact(render: Renderer, id: string, item: Item) { |render(id, item)| <= COMPACT_ITEM_CHARS }

  /** `fields`: the definition whole, or split wherever a rendered item is not compact. */
  function FieldsOf(render: Renderer, d: Definition): seq<Item> {
    Fields(item => IsCompact(render, d.id, item), d.value, d.path)
  }

  function RenderedFields(render: Renderer, d: Definition): (texts: seq<string>)
    ensures |texts| == |FieldsOf(render, d)|
  {
    var items := FieldsOf(render, d);
    seq(|items|, i requires 0 <= i < |items| => render(d.id, items[i]))
  }

  function Groups(render: Renderer, definitions: seq<Definition>): seq<seq<string>> {
    seq(|definitions|, i requires 0 <= i < |definitions| => RenderedFields(render, definitions[i]))
  }

  /** What `get` pages through: every action's items, then the resources', each action's end recorded. */
  ghost predicate Gets(render: Renderer, actions: seq<Definition>, resources: seq<Definition>, request: Request) {
    && request.items == Flatten(Groups(render, actions)) + Flatten(Groups(render, resources))
    && request.ends.Some? && |request.ends.value| == |actions|
    && forall a | 0 <= a < |actions| :: request.ends.value[a].end == |Flatten(Groups(render, actions)[..a + 1])|
  }

  /** `get` once its ids are found valid: a cursor too long is refused unread; otherwise one page of its items. */
  method Get(codec: Codec, render: Renderer, quote: string -> string, keyOf: seq<string> -> string,
             actions: seq<Definition>, resources: seq<Definition>, cursor: string)
                 returns (page: Page, ghost request: Request)
    ensures Gets(render, actions, resources, request) && request.key == keyOf(request.items)
    ensures forall a | 0 <= a < |actions| :: request.ends.value[a].rendered == quote(actions[a].id)
    ensures |cursor| > 1_000 || StartOf(codec, request, cursor).Refused? ==>
              page == Failed("invalid-or-stale-cursor")
    ensures |cursor| <= 1_000 && StartOf(codec, request, cursor).From? ==>
              ServesFrom(codec, request, None, StartOf(codec, request, cursor).offset, page)
  {
    hide Flatten, ServesFrom, Groups;
    var ids := seq(|actions|, a requires 0 <= a < |actions| => quote(actions[a].id));
    assert |Groups(render, actions)| == |actions| by { CountGroups(render, actions); }
    var items, ends := Assemble(ids, Groups(render, actions), Groups(render, resources));
    var asked := Request(keyOf(items), items, Some(ends));
    request := asked;
    if |cursor| > MAX_CURSOR_CHARS { return Failed("invalid-or-stale-cursor"), asked; }
    page := ReadPage(codec, asked, None, cursor);
  }

  lemma CountGroups(render: Renderer, definitions: seq<Definition>)
    ensures |Groups(render, definitions)| == |definitions|
  {
  }

  /** An item that is no part of a definition's: it cannot be divided, and rendered it is past the compact limit. */
  ghost predicate BigLeaf(render: Renderer, definitions: seq<Definition>, text: string) {
    exists d, item :: d in definitions && item in FieldsOf(render, d) && text == render(d.id, item)
      && Width(item.value) == 0 && |text| > 10_000
  }

  lemma {:induction false} FlattenedIsCompactOrLeaf(render: Renderer, definitions: seq<Definition>, k: nat)
    requires k < |Flatten(Groups(render, definitions))|
    ensures var text := Flatten(Groups(render, definitions))[k];
            |text| <= COMPACT_ITEM_CHARS || BigLeaf(render, definitions, text)
    decreases |definitions|
  {
    hide Fields;
    var front, last := definitions[..|definitions| - 1], definitions[|definitions| - 1];
    assert Groups(render, definitions)[..|front|] == Groups(render, front);
    var before := Flatten(Groups(render, front));
    if k < |before| {
      FlattenedIsCompactOrLeaf(render, front, k);
      assert forall d | d in front :: d in definitions;
    } else {
      FieldsFit(item => IsCompact(render, last.id, item), last.value, last.path);
      var item := FieldsOf(render, last)[k - |before|];
      assert item in FieldsOf(render, last) && last in definitions;
    }
  }

  /**
   * Reading all of a `get` stops, if at all, at a part of a definition that cannot be divided and is too long alone.
   */
  lemma OnlyBigLeavesOverrun(codec: Codec, render: Renderer, actions: seq<Definition>, resources: seq<Definition>,
                             request: Request, n: nat)
    requires Gets(render, actions, resources, request) && Ordinary(request) && Faithful(codec, request.key)
    requires n < |request.items| && TooLongAlone(codec, request, n)
    ensures BigLeaf(render, actions + resources, request.items[n])
  {
    hide TooLongAlone, Faithful, Ordinary, Flatten, Groups, BigLeaf;
    if |request.items[n]| <= COMPACT_ITEM_CHARS { CompactItemFits(codec, request, n); }
    var first := Flatten(Groups(render, actions));
    if n < |first| {
      FlattenedIsCompactOrLeaf(render, actions, n);
      LeafAmongMore(render, actions, actions + resources, request.items[n]);
    } else {
      FlattenedIsCompactOrLeaf(render, resources, n - |first|);
      LeafAmongMore(render, resources, actions + resources, request.items[n]);
    }
  }

  lemma LeafAmongMore(render: Renderer, some: seq<Definition>, all: seq<Definition>, text: string)
    requires BigLeaf(render, some, text) && forall d | d in some :: d in all
    ensures BigLeaf(render, all, text)
  {
  }
}
