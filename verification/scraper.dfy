/** The pure steps of the list scraper: normalising items read from a search result,
    cleaning the source URL, reading the topics file, and building the document text. */
module Scraper {
  import opened Wrappers
  import opened Seqs
  import Text

  // ----- values -----

  /** A JSON value as Python holds it after `json.loads`. Floats, lists and nested
      objects are kept as the text `str()` gives them. */
  datatype Value = VStr(s: string) | VInt(i: int) | VBool(b: bool) | VNull | VOther(shown: string)

  /** `f"{v}"`. */
  function PyStr(v: Value): string {
    match v
    case VStr(s) => s
    case VInt(i) => Text.IntToString(i)
    case VBool(b) => if b then "True" else "False"
    case VNull => "None"
    case VOther(shown) => shown
  }

  /** A dict's entries in insertion order. */
  type Entries = seq<(string, Value)>

  /** `d.get(key)`: the value stored under `key`, if any. */
  function Lookup(entries: Entries, key: string): (r: Option<Value>)
    ensures r.Some? <==> exists i :: 0 <= i < |entries| && entries[i].0 == key
    ensures r.Some? ==> exists i :: 0 <= i < |entries| && entries[i] == (key, r.value)
  {
    if |entries| == 0 then None
    else if entries[0].0 == key then Some(entries[0].1)
    else
      var r := Lookup(entries[1..], key);
      assert forall i :: 1 <= i < |entries| ==> entries[i] == entries[1..][i - 1];
      r
  }

  // ----- item normalisation -----

  /** At most this many items are taken from a search result. */
  const MaxItems := 10

  /** An element of the extracted list: a dict, or anything else. */
  datatype RawItem = Dict(entries: Entries) | NotDict

  /** A normalised item. */
  datatype Item = Item(rank: Value, name: Value, details: Option<string>)

  /** `k.replace('_', ' ')`. */
  function UnderscoresToSpaces(k: string): (r: string)
    ensures |r| == |k|
    ensures forall i :: 0 <= i < |k| ==> r[i] == (if k[i] == '_' then ' ' else k[i])
  {
    seq(|k|, i requires 0 <= i < |k| => if k[i] == '_' then ' ' else k[i])
  }

  /** The label of a detail: its key with underscores as spaces, title-cased. */
  function DetailLabel(k: string): (r: string)
    ensures |r| == |k| && forall i :: 0 <= i < |r| ==> r[i] != '_'
    ensures forall i :: 0 <= i < |k| ==>
      r[i] == (if k[i] == '_' then ' ' else Text.TitleChar(k[i], i > 0 && Text.IsAsciiLetter(k[i - 1])))
  {
    var spaced := UnderscoresToSpaces(k);
    var r := Text.PyTitle(spaced);
    forall i | 0 <= i < |r| ensures r[i] != '_' {
      var c := spaced[i];
      assert c != '_';
      assert r[i] == Text.TitleChar(c, if i == 0 then false else Text.IsAsciiLetter(spaced[i - 1]));
      assert Text.IsAsciiLetter(c) ==> Text.IsAsciiLetter(r[i]);
    }
    r
  }

  predicate IsDetailKey(k: string) {
    k != "rank" && k != "name"
  }

  /** The test "this entry is a detail". */
  predicate IsDetailEntry(e: (string, Value)) {
    IsDetailKey(e.0)
  }

  /** A detail's text: `"Key: value"`. */
  function DetailPart(e: (string, Value)): string {
    DetailLabel(e.0) + ": " + PyStr(e.1)
  }

  /** One `"Key: value"` string per entry whose key is neither `rank` nor `name`, in key
      order. */
  function DetailParts(entries: Entries): (r: seq<string>)
    ensures |r| <= |entries|
    ensures |r| == 0 <==> forall i :: 0 <= i < |entries| ==> !IsDetailKey(entries[i].0)
  {
    if |entries| == 0 then []
    else
      var rest := DetailParts(entries[1..]);
      assert forall i :: 1 <= i < |entries| ==> entries[i] == entries[1..][i - 1];
      var (k, v) := entries[0];
      if IsDetailKey(k) then [DetailLabel(k) + ": " + PyStr(v)] + rest else rest
  }

  /** The detail parts are the `"Key: value"` texts of the entries `filter` keeps for not
      being `rank` or `name`, in entry order. */
  lemma DetailPartsOfFilteredEntries(entries: Entries)
    ensures var details := Filter(entries, IsDetailEntry);
      |DetailParts(entries)| == |details|
      && forall i :: 0 <= i < |details| ==> DetailParts(entries)[i] == DetailPart(details[i])
  {
    AcceptedIsFilter(entries, IsDetailEntry);
    DetailPartsOfAccepted(entries);
  }

  lemma {:induction false} DetailPartsOfAccepted(entries: Entries)
    ensures var details := Accepted(entries, IsDetailEntry);
      |DetailParts(entries)| == |details|
      && forall i :: 0 <= i < |details| ==> DetailParts(entries)[i] == DetailPart(details[i])
    decreases |entries|
  {
    if |entries| > 0 {
      DetailPartsOfAccepted(entries[1..]);
      var e := entries[0];
      var parts, details := DetailParts(entries[1..]), Accepted(entries[1..], IsDetailEntry);
      var p, d := if IsDetailEntry(e) then [DetailPart(e)] else [], if IsDetailEntry(e) then [e] else [];
      assert DetailParts(entries) == p + parts;
      assert Accepted(entries, IsDetailEntry) == d + details;
      forall i | 0 <= i < |d + details|
        ensures (p + parts)[i] == DetailPart((d + details)[i])
      {
        if i >= |d| {
          assert (p + parts)[i] == parts[i - |d|] && (d + details)[i] == details[i - |d|];
        }
      }
    }
  }

  /** `sep.join(parts)`. */
  function Join(parts: seq<string>, sep: string): string {
    if |parts| == 0 then ""
    else if |parts| == 1 then parts[0]
    else parts[0] + sep + Join(parts[1..], sep)
  }

  /** Joining one more part appends the separator and that part. */
  lemma {:induction false} JoinSnoc(parts: seq<string>, p: string, sep: string)
    requires |parts| > 0
    ensures Join(parts + [p], sep) == Join(parts, sep) + sep + p
    decreases |parts|
  {
    if |parts| == 1 {
      assert parts + [p] == [parts[0], p];
      assert [parts[0], p][1..] == [p];
    } else {
      assert (parts + [p])[1..] == parts[1..] + [p];
      JoinSnoc(parts[1..], p, sep);
    }
  }

  /** Joined parts are as long as the parts plus one separator between each two. */
  lemma {:induction false} JoinLength(parts: seq<string>, sep: string, total: nat)
    requires |parts| > 0
    requires total == SumLengths(parts)
    ensures |Join(parts, sep)| == total + (|parts| - 1) * |sep|
    decreases |parts|
  {
    if |parts| > 1 {
      JoinLength(parts[1..], sep, SumLengths(parts[1..]));
    }
  }

  function SumLengths(parts: seq<string>): nat {
    if |parts| == 0 then 0 else |parts[0]| + SumLengths(parts[1..])
  }

  /** The normalised form of the dict at `position`: a missing rank becomes the
      position counted from one, a missing name becomes "Unknown", and the details are the
      other entries joined by ". ", or nothing when there are none. */
  function NormaliseItem(position: nat, entries: Entries): (r: Item)
    ensures r.rank == Lookup(entries, "rank").GetOr(VInt(position + 1))
    ensures r.name == Lookup(entries, "name").GetOr(VStr("Unknown"))
    ensures r.details.None? <==> forall i :: 0 <= i < |entries| ==> !IsDetailKey(entries[i].0)
    ensures r.details.Some? ==> r.details.value == Join(DetailParts(entries), ". ")
  {
    var parts := DetailParts(entries);
    Item(Lookup(entries, "rank").GetOr(VInt(position + 1)),
         Lookup(entries, "name").GetOr(VStr("Unknown")),
         if |parts| == 0 then None else Some(Join(parts, ". ")))
  }

  /** The length of the longest prefix of `raw` made of dicts. */
  function DictPrefix(raw: seq<RawItem>): (n: nat)
    ensures n <= |raw|
    ensures forall i :: 0 <= i < n ==> raw[i].Dict?
    ensures n < |raw| ==> raw[n].NotDict?
  {
    if |raw| == 0 || raw[0].NotDict? then 0
    else
      var n := DictPrefix(raw[1..]);
      assert forall i :: 1 <= i < |raw| ==> raw[i] == raw[1..][i - 1];
      n + 1
  }

  /** The loop over `items_list[:10]`. An element that is not a dict makes `.get` raise;
      the surrounding handler keeps the items appended before it. */
  function NormaliseItems(raw: seq<RawItem>): (r: seq<Item>)
    ensures |r| <= MaxItems && |r| <= |raw|
    ensures forall i :: 0 <= i < |r| ==> raw[i].Dict? && r[i] == NormaliseItem(i, raw[i].entries)
    ensures |r| < MaxItems && |r| < |raw| ==> raw[|r|].NotDict?
  {
    var window := if |raw| <= MaxItems then raw else raw[..MaxItems];
    var n := DictPrefix(window);
    seq(n, i requires 0 <= i < n => NormaliseItem(i, window[i].entries))
  }

  /** Only the first ten elements matter. */
  lemma OnlyFirstTenMatter(raw: seq<RawItem>, more: seq<RawItem>)
    requires |raw| >= MaxItems
    ensures NormaliseItems(raw + more) == NormaliseItems(raw)
  {
    NormalisedPrefixUnique(raw + more, raw);
  }

  /** Two lists that agree on their first ten elements normalise alike. */
  lemma NormalisedPrefixUnique(x: seq<RawItem>, y: seq<RawItem>)
    requires |x| >= MaxItems && |y| >= MaxItems
    requires forall i :: 0 <= i < MaxItems ==> x[i] == y[i]
    ensures NormaliseItems(x) == NormaliseItems(y)
  {
    assert x[..MaxItems] == y[..MaxItems];
  }

  /** A list of dicts yields one item per dict, up to ten, in the same order. */
  lemma DictsAreAllKept(raw: seq<RawItem>)
    requires forall i :: 0 <= i < |raw| ==> raw[i].Dict?
    ensures |NormaliseItems(raw)| == if |raw| < MaxItems then |raw| else MaxItems
  {
  }

  // ----- source URL -----

  /** The characters stripped from the end of a URL found in the search result. */
  const UrlTrailers := ".,;:\"')]"

  /** `url_match.group(0).rstrip('.,;:"\')]')`. */
  function CleanMatchedUrl(url: string): (r: string)
    ensures |r| <= |url| && r == url[..|r|]
    ensures |r| > 0 ==> r[|r| - 1] !in UrlTrailers
    ensures forall i :: |r| <= i < |url| ==> url[i] in UrlTrailers
  {
    Text.PyRStrip(url, UrlTrailers)
  }

  /** Cleaning a URL twice is cleaning it once. */
  lemma CleanMatchedUrlIdempotent(url: string)
    ensures CleanMatchedUrl(CleanMatchedUrl(url)) == CleanMatchedUrl(url)
  {
  }

  predicate StartsWithHttp(s: string) {
    "http" <= s
  }

  /** The source URL: the cleaned regex match when there is one, else the stripped answer
      of the extraction agent (absent when that agent reported errors). It is rejected
      when empty or not starting with "http". */
  function SourceUrl(matched: Option<string>, extracted: Option<string>): (r: Option<string>)
    ensures matched.Some? ==> (r.Some? <==> StartsWithHttp(CleanMatchedUrl(matched.value)))
    ensures matched.Some? && r.Some? ==> r.value == CleanMatchedUrl(matched.value)
    ensures matched.None? && extracted.None? ==> r.None?
    ensures matched.None? && extracted.Some? ==>
      (r.Some? <==> StartsWithHttp(Text.PyStrip(extracted.value)))
      && (r.Some? ==> r.value == Text.PyStrip(extracted.value))
    ensures r.Some? ==> |r.value| >= 4 && r.value[..4] == "http"
  {
    var candidate :=
      if matched.Some? then Some(CleanMatchedUrl(matched.value))
      else if extracted.Some? then Some(Text.PyStrip(extracted.value))
      else None;
    if candidate.None? || candidate.value == "" || !StartsWithHttp(candidate.value) then None
    else candidate
  }

  // ----- topics file -----

  /** An element of the topics file. */
  datatype TopicEntry = TopicText(text: string) | TopicDict(entries: Entries) | TopicOther

  /** The topics file's content: a JSON array, or anything else. */
  datatype TopicsFile = TopicList(entries: seq<TopicEntry>) | NotAList

  datatype Topics = Loaded(topics: seq<Value>) | Invalid(message: string)

  const NotStringsOrTopicsMessage :=
    "Invalid topics file format. Expected a list of strings or objects with 'topic' field."
  const NotArrayMessage := "Invalid topics file format. Expected a JSON array."

  predicate HasTopic(e: TopicEntry) {
    e.TopicDict? && Lookup(e.entries, "topic").Some?
  }

  /** Reading the topics file: a list of strings is taken as is (so an empty list gives no
      topics), a list of dicts that all carry "topic" gives those values, and anything
      else raises `ValueError` with the matching message. */
  function LoadTopics(f: TopicsFile): (r: Topics)
    ensures f.NotAList? ==> r == Invalid(NotArrayMessage)
    ensures f.TopicList? && (forall i :: 0 <= i < |f.entries| ==> f.entries[i].TopicText?) ==>
      r.Loaded? && |r.topics| == |f.entries|
      && forall i :: 0 <= i < |r.topics| ==> r.topics[i] == VStr(f.entries[i].text)
    ensures f.TopicList? && |f.entries| > 0 && (forall i :: 0 <= i < |f.entries| ==> HasTopic(f.entries[i])) ==>
      r.Loaded? && |r.topics| == |f.entries|
      && forall i :: 0 <= i < |r.topics| ==> Some(r.topics[i]) == Lookup(f.entries[i].entries, "topic")
    ensures f.TopicList? ==>
      (r.Invalid? <==> (exists i :: 0 <= i < |f.entries| && !f.entries[i].TopicText?)
                       && (exists i :: 0 <= i < |f.entries| && !HasTopic(f.entries[i])))
    ensures r.Invalid? && f.TopicList? ==>
      && r.message == NotStringsOrTopicsMessage
      && (exists i :: 0 <= i < |f.entries| && !f.entries[i].TopicText?)
      && (exists i :: 0 <= i < |f.entries| && !HasTopic(f.entries[i]))
  {
    match f
    case NotAList => Invalid(NotArrayMessage)
    case TopicList(es) =>
      if forall i :: 0 <= i < |es| ==> es[i].TopicText? then
        Loaded(seq(|es|, i requires 0 <= i < |es| => VStr(es[i].text)))
      else if forall i :: 0 <= i < |es| ==> HasTopic(es[i]) then
        Loaded(seq(|es|, i requires 0 <= i < |es| => Lookup(es[i].entries, "topic").value))
      else Invalid(NotStringsOrTopicsMessage)
  }

  // ----- document content -----

  /** The heading and source line. */
  function DocHeader(topic: string, url: string): string {
    "# Top 10 " + Text.PyTitle(topic) + "\n\nSource: " + url + "\n\n"
  }

  /** Python truthiness of the details field. */
  predicate HasDetails(it: Item) {
    it.details.Some? && it.details.value != ""
  }

  /** An item's heading line: `## {rank}. {name}`. */
  function Heading(it: Item): string {
    "## " + PyStr(it.rank) + ". " + PyStr(it.name) + "\n"
  }

  /** One item's section: its heading, then its details and a blank line, or just a
      blank line. */
  function ItemBlock(it: Item): (r: string)
    ensures |r| >= 4 && r[..3] == "## "
    ensures r[|r| - 1] == '\n'
  {
    var heading := Heading(it);
    assert heading[..3] == "## ";
    if HasDetails(it) then heading + it.details.value + "\n\n" else heading + "\n"
  }

  /** A section is the item's heading followed by its details and a blank line when it
      has details, and by a lone newline otherwise. */
  lemma ItemBlockLayout(it: Item)
    ensures var r, h := ItemBlock(it), Heading(it);
      && |r| > |h| && r[..|h|] == h
      && (HasDetails(it) ==> r[|h|..] == it.details.value + "\n\n")
      && (!HasDetails(it) ==> r[|h|..] == "\n")
  {
  }

  function ItemBlocks(items: seq<Item>): string {
    if |items| == 0 then "" else ItemBlock(items[0]) + ItemBlocks(items[1..])
  }

  /** The sections of two runs of items are the sections of the first, then of the second. */
  lemma {:induction false} ItemBlocksAppend(a: seq<Item>, b: seq<Item>)
    ensures ItemBlocks(a + b) == ItemBlocks(a) + ItemBlocks(b)
    decreases |a|
  {
    if |a| == 0 {
      assert a + b == b;
    } else {
      assert (a + b)[1..] == a[1..] + b;
      ItemBlocksAppend(a[1..], b);
      SeqAssoc(ItemBlock(a[0]), ItemBlocks(a[1..]), ItemBlocks(b));
    }
  }

  /** The document text built for `topic`, `url` and `items`. */
  function DocContent(topic: string, url: string, items: seq<Item>): (r: string)
    ensures |r| >= |DocHeader(topic, url)| && r[..|DocHeader(topic, url)|] == DocHeader(topic, url)
  {
    DocHeader(topic, url) + ItemBlocks(items)
  }

  /** Each further item appends its own section and leaves the text so far unchanged. */
  lemma DocContentSnoc(topic: string, url: string, items: seq<Item>, it: Item)
    ensures DocContent(topic, url, items + [it]) == DocContent(topic, url, items) + ItemBlock(it)
  {
    ItemBlocksAppend(items, [it]);
    assert ItemBlocks([it]) == ItemBlock(it) + ItemBlocks([]);
    SeqAssoc(DocHeader(topic, url), ItemBlocks(items), ItemBlock(it));
  }

  /** Concatenation regroups. */
  lemma SeqAssoc(x: string, y: string, z: string)
    ensures (x + y) + z == x + (y + z)
  {
  }

  /** Item `k`'s section sits in the document right after the header and the sections of
      the items before it, and the sections of the items after it follow. */
  lemma {:induction false} DocContentBlockAt(topic: string, url: string, items: seq<Item>, k: nat)
    requires k < |items|
    ensures DocContent(topic, url, items)
      == DocHeader(topic, url) + (ItemBlocks(items[..k]) + (ItemBlock(items[k]) + ItemBlocks(items[k + 1..])))
  {
    ItemBlocksSplit(items, k);
  }

  /** The sections of `items` are those before item `k`, item `k`'s, and those after it. */
  lemma {:induction false} ItemBlocksSplit(items: seq<Item>, k: nat)
    requires k < |items|
    ensures ItemBlocks(items) == ItemBlocks(items[..k]) + (ItemBlock(items[k]) + ItemBlocks(items[k + 1..]))
  {
    var before, rest, after := items[..k], items[k..], items[k + 1..];
    assert items == before + rest;
    ItemBlocksAppend(before, rest);
    assert rest[0] == items[k] && rest[1..] == after;
  }

  /** Missing and empty details give the same section. */
  lemma EmptyDetailsLikeNone(rank: Value, name: Value)
    ensures ItemBlock(Item(rank, name, Some(""))) == ItemBlock(Item(rank, name, None))
    ensures ItemBlock(Item(rank, name, None)) == "## " + PyStr(rank) + ". " + PyStr(name) + "\n\n"
  {
  }

  /** The heading title-cases the topic, so a topic already title-cased gives the same
      document. */
  lemma TitleCasedTopicSameDoc(topic: string, url: string, items: seq<Item>)
    ensures DocContent(Text.PyTitle(topic), url, items) == DocContent(topic, url, items)
  {
    Text.TitleFromIdempotent(topic, false);
  }
}
