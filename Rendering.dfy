/**
 * Rendering: the HTML page built from the grouped links. The page is kept
 * as the sequence of chunks the program appends one after another; the
 * string written out is their concatenation. Paths, keys and display names
 * are copied into the markup verbatim, without escaping.
 */
module Rendering {
  import opened Wrappers
  import opened Grouping
  import opened Selection

  /** Everything before the first group: head, style block and the top-level heading. */
  const Prefix: string :=
    "<!DOCTYPE html>\n"
    + "<html lang=\"en\">\n"
    + "<head>\n"
    + "    <meta charset=\"UTF-8\">\n"
    + "    <meta name=\"viewport\" content=\"width=device-width, initial-scale=1.0\">\n"
    + "    <title>PDF Links</title>\n"
    + "    <style>\n"
    + "        body { font-family: Arial, sans-serif; margin: 20px; }\n"
    + "        h1, h2 { color: #333; }\n"
    + "        ul { list-style-type: none; padding: 0; }\n"
    + "        li { margin: 5px 0; }\n"
    + "        a { text-decoration: none; color: #0066cc; }\n"
    + "        a:hover { text-decoration: underline; }\n"
    + "    </style>\n"
    + "</head>\n"
    + "<body>\n"
    + "    <h1>List of PDF Files</h1>\n"

  /** Everything after the last group. */
  const Suffix: string := "</body>\n</html>\n"

  const ListOpen: string := "    <ul>\n"
  const ListClose: string := "    </ul>\n"
  const HeaderOpen: string := "    <h2>"
  const HeaderClose: string := "</h2>\n"
  const ItemOpen: string := "        <li><a href=\""
  const ItemMiddle: string := "\" target=\"_blank\" title=\""
  const ItemTextOpen: string := "\">"
  const ItemClose: string := "</a></li>\n"

  /** The sub-heading of a group. */
  function HeaderLine(key: string): string
  {
    HeaderOpen + key + HeaderClose
  }

  /** The list item of one entry: a link to its path, titled and labelled with its display name. */
  function ItemLine(e: Entry): string
  {
    ItemOpen + e.path + ItemMiddle + e.displayName + ItemTextOpen + e.displayName + ItemClose
  }

  function ItemLines(entries: seq<Entry>): (lines: seq<string>)
    ensures |lines| == |entries| && forall i :: 0 <= i < |entries| ==> lines[i] == ItemLine(entries[i])
  {
    seq(|entries|, i requires 0 <= i < |entries| => ItemLine(entries[i]))
  }

  /** A group gets a sub-heading when headers are on and it is not the scan root's group. */
  predicate HasHeader(key: string, useHeaders: bool)
  {
    useHeaders && key != "."
  }

  /** The chunks of one group: optional sub-heading, list opening, one item per entry, list closing. */
  function GroupChunks(key: string, entries: seq<Entry>, useHeaders: bool): seq<string>
  {
    (if HasHeader(key, useHeaders) then [HeaderLine(key)] else [])
    + [ListOpen] + ItemLines(entries) + [ListClose]
  }

  /** The chunks of all groups, in dictionary order. */
  function BodyChunks(groups: Groups<string, Entry>, useHeaders: bool): seq<string>
  {
    if groups == [] then []
    else
      var last := groups[|groups| - 1];
      BodyChunks(groups[..|groups| - 1], useHeaders) + GroupChunks(last.0, last.1, useHeaders)
  }

  /** The chunks of the whole page. */
  function DocumentChunks(groups: Groups<string, Entry>, useHeaders: bool): seq<string>
  {
    [Prefix] + BodyChunks(groups, useHeaders) + [Suffix]
  }

  /** The text of a sequence of chunks. */
  function Concat(chunks: seq<string>): string
  {
    if chunks == [] then "" else Concat(chunks[..|chunks| - 1]) + chunks[|chunks| - 1]
  }

  lemma ConcatSnoc(chunks: seq<string>, c: string)
    ensures Concat(chunks + [c]) == Concat(chunks) + c
  {
    assert (chunks + [c])[..|chunks|] == chunks;
  }

  lemma {:induction false} ConcatAppend(a: seq<string>, b: seq<string>)
    ensures Concat(a + b) == Concat(a) + Concat(b)
    decreases |b|
  {
    if b != [] {
      var init, last := b[..|b| - 1], b[|b| - 1];
      ConcatAppend(a, init);
      assert a + b == (a + init) + [last];
      ConcatSnoc(a + init, last);
    } else {
      assert a + b == a;
    }
  }

  /** The text of chunks framed by a first and a last chunk. */
  lemma ConcatFramed(first: string, middle: seq<string>, last: string)
    ensures Concat([first] + middle) == first + Concat(middle)
    ensures Concat([first] + middle + [last]) == first + Concat(middle) + last
  {
    ConcatSnoc([], first);
    ConcatAppend([first], middle);
    ConcatSnoc([first] + middle, last);
  }

  /** The text of an optional chunk followed by framed chunks. */
  lemma ConcatGroup(head: seq<string>, open: string, middle: seq<string>, close: string)
    requires |head| <= 1
    ensures Concat(head + [open] + middle + [close])
            == (if head == [] then "" else head[0]) + open + Concat(middle) + close
  {
    ConcatOptional(head);
    ConcatSnoc(head, open);
    ConcatAppend(head + [open], middle);
    ConcatSnoc(head + [open] + middle, close);
  }

  lemma ConcatOptional(head: seq<string>)
    requires |head| <= 1
    ensures Concat(head) == if head == [] then "" else head[0]
  {
    if head != [] {
      assert head == [] + [head[0]];
      ConcatSnoc([], head[0]);
    }
  }

  /** The text of one group. */
  lemma GroupText(key: string, entries: seq<Entry>, useHeaders: bool)
    ensures Concat(GroupChunks(key, entries, useHeaders))
            == (if HasHeader(key, useHeaders) then HeaderLine(key) else "")
               + ListOpen + Concat(ItemLines(entries)) + ListClose
  {
    var head := if HasHeader(key, useHeaders) then [HeaderLine(key)] else [];
    ConcatGroup(head, ListOpen, ItemLines(entries), ListClose);
  }

  lemma ItemTextSnoc(entries: seq<Entry>, j: nat)
    requires j < |entries|
    ensures Concat(ItemLines(entries[..j + 1])) == Concat(ItemLines(entries[..j])) + ItemLine(entries[j])
  {
    assert ItemLines(entries[..j + 1]) == ItemLines(entries[..j]) + [ItemLine(entries[j])];
    ConcatSnoc(ItemLines(entries[..j]), ItemLine(entries[j]));
  }

  /** The text of the whole page: prefix, groups, suffix. */
  lemma DocumentText(groups: Groups<string, Entry>, useHeaders: bool)
    ensures Concat(DocumentChunks(groups, useHeaders))
            == Prefix + Concat(BodyChunks(groups, useHeaders)) + Suffix
    ensures Concat([Prefix] + BodyChunks(groups, useHeaders)) == Prefix + Concat(BodyChunks(groups, useHeaders))
  {
    ConcatFramed(Prefix, BodyChunks(groups, useHeaders), Suffix);
  }

  /**
   * Builds the page by appending to a string: the prefix, then per group an
   * optional sub-heading, the list opening, one item per entry and the list
   * closing, then the suffix. The result always starts with the prefix and
   * ends with the suffix.
   */
  method Render(groups: Groups<string, Entry>, useHeaders: bool) returns (html: string)
    ensures html == Concat(DocumentChunks(groups, useHeaders))
    ensures |html| >= |Prefix| + |Suffix|
    ensures html[..|Prefix|] == Prefix && html[|html| - |Suffix|..] == Suffix
  {
    html := Prefix;
    html := AppendGroups(html, groups, useHeaders);
    html := html + Suffix;
    DocumentText(groups, useHeaders);
    Framed(Prefix, Concat(BodyChunks(groups, useHeaders)), Suffix);
  }

  /** The group loop of `Render`: appends the chunks of every group, in dictionary order. */
  method AppendGroups(start: string, groups: Groups<string, Entry>, useHeaders: bool) returns (html: string)
    ensures html == start + Concat(BodyChunks(groups, useHeaders))
  {
    html := start;
    assert groups[..0] == [];
    var i := 0;
    while i < |groups|
      invariant 0 <= i <= |groups|
      invariant html == start + Concat(BodyChunks(groups[..i], useHeaders))
    {
      var (key, files) := groups[i];
      html := AppendGroup(html, key, files, useHeaders);
      BodyTextSnoc(start, groups, i, useHeaders);
      i := i + 1;
    }
    assert groups[..i] == groups;
  }

  /**
   * One group of `Render`: the sub-heading when headers are on and the key
   * is not the scan root, the list opening, one item per entry, the list
   * closing.
   */
  method AppendGroup(before: string, key: string, files: seq<Entry>, useHeaders: bool) returns (html: string)
    ensures html == before + Concat(GroupChunks(key, files, useHeaders))
  {
    html := before;
    ghost var header := if HasHeader(key, useHeaders) then HeaderLine(key) else "";
    if useHeaders && key != "." {
      html := html + HeaderLine(key);
    }
    html := html + ListOpen;
    Assoc(before, header, ListOpen);
    ghost var started := before + (header + ListOpen);
    assert html + "" == html;
    var j := 0;
    while j < |files|
      invariant 0 <= j <= |files|
      invariant html == started + Concat(ItemLines(files[..j]))
    {
      ItemTextSnoc(files, j);
      Assoc(started, Concat(ItemLines(files[..j])), ItemLine(files[j]));
      html := html + ItemLine(files[j]);
      j := j + 1;
    }
    html := html + ListClose;
    assert files[..j] == files;
    GroupText(key, files, useHeaders);
    GroupClose(before, header + ListOpen, Concat(ItemLines(files)), ListClose);
  }

  lemma BodyTextSnoc(start: string, groups: Groups<string, Entry>, i: nat, useHeaders: bool)
    requires i < |groups|
    ensures start + Concat(BodyChunks(groups[..i + 1], useHeaders))
            == start + Concat(BodyChunks(groups[..i], useHeaders))
               + Concat(GroupChunks(groups[i].0, groups[i].1, useHeaders))
  {
    assert groups[..i + 1][..i] == groups[..i];
    ConcatAppend(BodyChunks(groups[..i], useHeaders), GroupChunks(groups[i].0, groups[i].1, useHeaders));
  }

  lemma GroupClose(before: string, head: string, items: string, close: string)
    ensures before + head + items + close == before + (head + items + close)
  {
  }

  /** A string framed by `first` and `last` starts with `first` and ends with `last`. */
  lemma Framed(first: string, middle: string, last: string)
    ensures var s := first + middle + last;
            |s| >= |first| + |last| && s[..|first|] == first && s[|s| - |last|..] == last
  {
  }

  /** The two kinds of chunk a reader of the page looks for. */
  datatype Kind = ItemKind | HeaderKind

  predicate StartsWith(s: string, prefix: string)
  {
    |prefix| <= |s| && s[..|prefix|] == prefix
  }

  /** A list-item line starts with the item opening; a sub-heading with the heading opening. */
  predicate IsKind(c: string, kind: Kind)
  {
    match kind
    case ItemKind => StartsWith(c, ItemOpen)
    case HeaderKind => StartsWith(c, HeaderOpen)
  }

  /** The chunks of one kind, in page order. */
  function OfKind(chunks: seq<string>, kind: Kind): seq<string>
  {
    if chunks == [] then []
    else
      var last := chunks[|chunks| - 1];
      OfKind(chunks[..|chunks| - 1], kind) + if IsKind(last, kind) then [last] else []
  }

  lemma {:induction false} OfKindAppend(a: seq<string>, b: seq<string>, kind: Kind)
    ensures OfKind(a + b, kind) == OfKind(a, kind) + OfKind(b, kind)
    decreases |b|
  {
    if b != [] {
      var init, last := b[..|b| - 1], b[|b| - 1];
      OfKindAppend(a, init, kind);
      assert (a + b)[..|a + b| - 1] == a + init;
    } else {
      assert a + b == a;
    }
  }

  lemma OfKindOne(c: string, kind: Kind)
    ensures OfKind([c], kind) == if IsKind(c, kind) then [c] else []
  {
    assert [c][..0] == [];
  }

  /** A string that starts with `p` does not start with a `q` that differs from `p` at position `i`. */
  lemma StartsDifferently(s: string, p: string, q: string, i: nat)
    requires StartsWith(s, p) && i < |p| && i < |q| && p[i] != q[i]
    ensures !StartsWith(s, q)
  {
    assert s[i] == p[i];
  }

  lemma ConcatStartsWith(a: string, b: string)
    ensures StartsWith(a + b, a)
  {
    assert (a + b)[..|a|] == a;
  }

  /** The head is neither an item line nor a sub-heading. */
  lemma PrefixKind()
    ensures !IsKind(Prefix, ItemKind) && !IsKind(Prefix, HeaderKind)
  {
    assert Prefix[0] == '<';
  }

  /** The tail and the list lines are neither item lines nor sub-headings. */
  lemma FixedChunkKinds()
    ensures !IsKind(Suffix, ItemKind) && !IsKind(Suffix, HeaderKind)
    ensures !IsKind(ListOpen, ItemKind) && !IsKind(ListOpen, HeaderKind)
    ensures !IsKind(ListClose, ItemKind) && !IsKind(ListClose, HeaderKind)
  {
    assert Suffix[0] == '<';
    assert ListOpen[4] == '<' && ListClose[4] == '<' && ListOpen[5] == 'u' && ListClose[5] == '/';
  }

  /** An item line is an item line and no sub-heading. */
  lemma ItemLineKind(e: Entry)
    ensures IsKind(ItemLine(e), ItemKind) && !IsKind(ItemLine(e), HeaderKind)
  {
    var t := e.displayName + ItemTextOpen + e.displayName + ItemClose;
    Regroup(ItemOpen, e.path, ItemMiddle, e.displayName, ItemTextOpen, ItemClose);
    ConcatStartsWith(ItemOpen, e.path + (ItemMiddle + t));
    assert ItemOpen[4] == ' ' && HeaderOpen[4] == '<';
    StartsDifferently(ItemLine(e), ItemOpen, HeaderOpen, 4);
  }

  /** A sub-heading is a sub-heading and no item line. */
  lemma HeaderLineKind(key: string)
    ensures IsKind(HeaderLine(key), HeaderKind) && !IsKind(HeaderLine(key), ItemKind)
  {
    Assoc(HeaderOpen, key, HeaderClose);
    ConcatStartsWith(HeaderOpen, key + HeaderClose);
    assert ItemOpen[4] == ' ' && HeaderOpen[4] == '<';
    StartsDifferently(HeaderLine(key), HeaderOpen, ItemOpen, 4);
  }

  /** Chunks that are all of one kind and none of another are kept whole by the first and dropped by the second. */
  lemma {:induction false} OfKindAll(chunks: seq<string>, kind: Kind, other: Kind)
    requires forall i :: 0 <= i < |chunks| ==> IsKind(chunks[i], kind) && !IsKind(chunks[i], other)
    ensures OfKind(chunks, kind) == chunks && OfKind(chunks, other) == []
  {
    if chunks != [] {
      var init, last := chunks[..|chunks| - 1], chunks[|chunks| - 1];
      OfKindAll(init, kind, other);
      assert IsKind(last, kind) && !IsKind(last, other);
      assert OfKind(chunks, kind) == OfKind(init, kind) + [last];
      assert init + [last] == chunks;
    }
  }

  /** The item lines are all item lines and none is a sub-heading. */
  lemma ItemLinesOfKind(entries: seq<Entry>)
    ensures OfKind(ItemLines(entries), ItemKind) == ItemLines(entries)
    ensures OfKind(ItemLines(entries), HeaderKind) == []
  {
    var lines := ItemLines(entries);
    forall i | 0 <= i < |lines|
      ensures IsKind(lines[i], ItemKind) && !IsKind(lines[i], HeaderKind)
    {
      ItemLineKind(entries[i]);
    }
    OfKindAll(lines, ItemKind, HeaderKind);
  }

  /** The item lines of one group are its entries' lines; it has a sub-heading exactly when `HasHeader`. */
  lemma GroupChunksOfKind(key: string, entries: seq<Entry>, useHeaders: bool)
    ensures OfKind(GroupChunks(key, entries, useHeaders), ItemKind) == ItemLines(entries)
    ensures OfKind(GroupChunks(key, entries, useHeaders), HeaderKind)
            == if HasHeader(key, useHeaders) then [HeaderLine(key)] else []
  {
    var head := if HasHeader(key, useHeaders) then [HeaderLine(key)] else [];
    var lines := ItemLines(entries);
    FixedChunkKinds();
    HeaderLineKind(key);
    ItemLinesOfKind(entries);
    OfKindFramed(head, ListOpen, lines, ListClose, ItemKind);
    OfKindFramed(head, ListOpen, lines, ListClose, HeaderKind);
    if head != [] {
      OfKindOne(HeaderLine(key), ItemKind);
      OfKindOne(HeaderLine(key), HeaderKind);
    }
  }

  /** Picking one kind out of `head + [open] + middle + [close]` when `open` and `close` are of no kind. */
  lemma OfKindFramed(head: seq<string>, open: string, middle: seq<string>, close: string, kind: Kind)
    requires !IsKind(open, kind) && !IsKind(close, kind)
    ensures OfKind(head + [open] + middle + [close], kind) == OfKind(head, kind) + OfKind(middle, kind)
  {
    OfKindOne(open, kind);
    OfKindOne(close, kind);
    OfKindAppend(head, [open], kind);
    OfKindAppend(head + [open], middle, kind);
    OfKindAppend(head + [open] + middle, [close], kind);
    assert OfKind(head, kind) + [] == OfKind(head, kind);
    assert OfKind(head, kind) + OfKind(middle, kind) + [] == OfKind(head, kind) + OfKind(middle, kind);
  }

  /** The key of every group that gets a sub-heading, in dictionary order. */
  function HeadedKeys(groups: Groups<string, Entry>, useHeaders: bool): seq<string>
  {
    if groups == [] then []
    else
      var last := groups[|groups| - 1];
      HeadedKeys(groups[..|groups| - 1], useHeaders) + if HasHeader(last.0, useHeaders) then [last.0] else []
  }

  /** A key gets a sub-heading exactly when it is a key of the dictionary, headers are on and it is not ".". */
  lemma {:induction false} HeadedKeysExactly(groups: Groups<string, Entry>, useHeaders: bool, key: string)
    ensures key in HeadedKeys(groups, useHeaders) <==> key in Keys(groups) && useHeaders && key != "."
  {
    if groups != [] {
      var init := groups[..|groups| - 1];
      HeadedKeysExactly(init, useHeaders, key);
      assert Keys(groups) == Keys(init) + [groups[|groups| - 1].0];
    }
  }

  function HeaderLines(keys: seq<string>): seq<string>
  {
    seq(|keys|, i requires 0 <= i < |keys| => HeaderLine(keys[i]))
  }

  lemma ItemLinesAppend(a: seq<Entry>, b: seq<Entry>)
    ensures ItemLines(a + b) == ItemLines(a) + ItemLines(b)
  {
  }

  lemma BodyChunksSnoc(groups: Groups<string, Entry>, useHeaders: bool)
    requires groups != []
    ensures var init, last := groups[..|groups| - 1], groups[|groups| - 1];
            && BodyChunks(groups, useHeaders) == BodyChunks(init, useHeaders) + GroupChunks(last.0, last.1, useHeaders)
            && HeadedKeys(groups, useHeaders)
               == HeadedKeys(init, useHeaders) + (if HasHeader(last.0, useHeaders) then [last.0] else [])
            && Flatten(groups) == Flatten(init) + last.1
  {
    var init, last := groups[..|groups| - 1], groups[|groups| - 1];
    assert groups == init + [last];
    FlattenSnoc(init, last);
  }

  lemma HeaderLinesSnoc(keys: seq<string>, extra: seq<string>)
    ensures HeaderLines(keys + extra) == HeaderLines(keys) + HeaderLines(extra)
  {
  }

  lemma {:induction false} BodyChunksOfKind(groups: Groups<string, Entry>, useHeaders: bool)
    ensures OfKind(BodyChunks(groups, useHeaders), ItemKind) == ItemLines(Flatten(groups))
    ensures OfKind(BodyChunks(groups, useHeaders), HeaderKind) == HeaderLines(HeadedKeys(groups, useHeaders))
  {
    if groups != [] {
      var init, last := groups[..|groups| - 1], groups[|groups| - 1];
      var body, group := BodyChunks(init, useHeaders), GroupChunks(last.0, last.1, useHeaders);
      var extra := if HasHeader(last.0, useHeaders) then [last.0] else [];
      BodyChunksSnoc(groups, useHeaders);
      BodyChunksOfKind(init, useHeaders);
      GroupChunksOfKind(last.0, last.1, useHeaders);
      OfKindAppend(body, group, ItemKind);
      OfKindAppend(body, group, HeaderKind);
      ItemLinesAppend(Flatten(init), last.1);
      HeaderLinesSnoc(HeadedKeys(init, useHeaders), extra);
      assert HeaderLines(extra) == if HasHeader(last.0, useHeaders) then [HeaderLine(last.0)] else [];
    }
  }

  /**
   * Reading the page back: its list items are exactly one line per entry,
   * in dictionary order and within a group in entry order; its sub-headings
   * are exactly those of the groups with `HasHeader`, in dictionary order.
   */
  lemma DocumentChunksOfKind(groups: Groups<string, Entry>, useHeaders: bool)
    ensures OfKind(DocumentChunks(groups, useHeaders), ItemKind) == ItemLines(Flatten(groups))
    ensures |OfKind(DocumentChunks(groups, useHeaders), ItemKind)| == |Flatten(groups)|
    ensures OfKind(DocumentChunks(groups, useHeaders), HeaderKind) == HeaderLines(HeadedKeys(groups, useHeaders))
  {
    var body := BodyChunks(groups, useHeaders);
    BodyChunksOfKind(groups, useHeaders);
    PrefixKind();
    FixedChunkKinds();
    forall kind | kind == ItemKind || kind == HeaderKind
      ensures OfKind(DocumentChunks(groups, useHeaders), kind) == OfKind(body, kind)
    {
      OfKindAppend([Prefix], body, kind);
      OfKindAppend([Prefix] + body, [Suffix], kind);
      OfKindOne(Prefix, kind);
      OfKindOne(Suffix, kind);
    }
  }

  /** The scan root's group never gets a sub-heading, whether headers are on or not. */
  lemma {:induction false} RootNeverHeaded(groups: Groups<string, Entry>, useHeaders: bool)
    ensures "." !in HeadedKeys(groups, useHeaders)
    ensures !useHeaders ==> HeadedKeys(groups, useHeaders) == []
  {
    if groups != [] {
      RootNeverHeaded(groups[..|groups| - 1], useHeaders);
    }
  }

  /** The position of the first '"' in `s`, or `|s|` when there is none. */
  function QuoteIndex(s: string): (r: nat)
    ensures r <= |s| && '"' !in s[..r] && (r < |s| ==> s[r] == '"')
  {
    if s == [] || s[0] == '"' then 0 else 1 + QuoteIndex(s[1..])
  }

  /**
   * Reads an entry back from a line made of `open`, a path, `middle`, a
   * display name, `textOpen`, the display name again and `close`: the path
   * runs up to the first '"', and the display name is found by length.
   */
  function ParseFramed(line: string, open: string, middle: string, textOpen: string, close: string): Option<Entry>
  {
    if !StartsWith(line, open) then None
    else
      var rest := line[|open|..];
      var q := QuoteIndex(rest);
      var tail := rest[q..];
      if !StartsWith(tail, middle) then None
      else
        var t := tail[|middle|..];
        var fixed := |textOpen| + |close|;
        if |t| < fixed || (|t| - fixed) % 2 != 0 then None
        else
          var name := t[..(|t| - fixed) / 2];
          if t == name + textOpen + name + close then Some(Entry(rest[..q], name)) else None
  }

  /** Reads an entry back from a list-item line. */
  function ParseItem(line: string): Option<Entry>
  {
    ParseFramed(line, ItemOpen, ItemMiddle, ItemTextOpen, ItemClose)
  }

  /** The first '"' of `path + rest` is the first of `rest` when `path` has none. */
  lemma {:induction false} QuoteIndexAfter(path: string, rest: string)
    requires '"' !in path && rest != [] && rest[0] == '"'
    ensures QuoteIndex(path + rest) == |path|
  {
    if path != [] {
      assert (path + rest)[1..] == path[1..] + rest;
      QuoteIndexAfter(path[1..], rest);
    } else {
      assert path + rest == rest;
    }
  }

  /** An item line regrouped from the right: the opening, then the path, then the rest. */
  lemma Regroup(open: string, path: string, middle: string, name: string, textOpen: string, close: string)
    ensures open + path + middle + name + textOpen + name + close
            == open + (path + (middle + (name + textOpen + name + close)))
  {
    var t := name + textOpen + name + close;
    Assoc(open + path + middle + name + textOpen, name, close);
    Assoc(open + path + middle + name, textOpen, name + close);
    Assoc(open + path + middle, name, textOpen + (name + close));
    assert name + (textOpen + (name + close)) == t;
    Assoc(open + path, middle, t);
    Assoc(open, path, middle + t);
  }

  /** The pieces of a line `open + path + middle + t`, read back. */
  lemma ItemPieces(open: string, path: string, middle: string, t: string)
    requires middle != [] && middle[0] == '"' && '"' !in path
    ensures var line := open + (path + (middle + t));
            var rest := line[|open|..];
            && line[..|open|] == open
            && rest == path + (middle + t)
            && QuoteIndex(rest) == |path|
            && rest[..|path|] == path
            && rest[|path|..][..|middle|] == middle
            && rest[|path|..][|middle|..] == t
  {
    QuoteIndexAfter(path, middle + t);
  }

  /** A name occurring twice, separated and followed by fixed text, is found by length. */
  lemma NamePieces(name: string, textOpen: string, close: string)
    ensures var t := name + textOpen + name + close;
            && |t| >= |textOpen| + |close| && (|t| - (|textOpen| + |close|)) % 2 == 0
            && (|t| - (|textOpen| + |close|)) / 2 == |name|
            && t[..|name|] == name
  {
  }

  /** A framed line whose path has no '"' reads back as its path and name. */
  lemma ParseFramedLine(path: string, name: string, open: string, middle: string, textOpen: string, close: string)
    requires middle != [] && middle[0] == '"' && '"' !in path
    ensures ParseFramed(open + path + middle + name + textOpen + name + close, open, middle, textOpen, close)
            == Some(Entry(path, name))
  {
    Regroup(open, path, middle, name, textOpen, close);
    ItemPieces(open, path, middle, name + textOpen + name + close);
    NamePieces(name, textOpen, close);
  }

  /**
   * A list-item line names its entry unambiguously: the href is the path
   * and both the title and the link text are the display name. Because
   * nothing is escaped, this holds only for paths without '"'.
   */
  lemma ParseItemLine(e: Entry)
    requires '"' !in e.path
    ensures ParseItem(ItemLine(e)) == Some(e)
  {
    assert ItemMiddle[0] == '"';
    ParseFramedLine(e.path, e.displayName, ItemOpen, ItemMiddle, ItemTextOpen, ItemClose);
  }

  /** A line cut at `open`, at the first '"' and at `middle` is reassembled from its pieces. */
  lemma Reassemble(line: string, open: string, middle: string, name: string, textOpen: string, close: string)
    requires StartsWith(line, open)
    requires var rest := line[|open|..];
             var q := QuoteIndex(rest);
             StartsWith(rest[q..], middle) && rest[q..][|middle|..] == name + textOpen + name + close
    ensures var rest := line[|open|..];
            var q := QuoteIndex(rest);
            line == open + rest[..q] + middle + name + textOpen + name + close && '"' !in rest[..q]
  {
    var rest := line[|open|..];
    var q := QuoteIndex(rest);
    var tail := rest[q..];
    assert line == open + rest;
    assert rest == rest[..q] + tail;
    assert tail == middle + (name + textOpen + name + close);
    Regroup(open, rest[..q], middle, name, textOpen, close);
  }

  lemma Assoc(a: string, b: string, c: string)
    ensures a + (b + c) == a + b + c
  {
  }

  /** A line that reads back as an entry is that entry's framed line. */
  lemma ParseFramedSound(line: string, e: Entry, open: string, middle: string, textOpen: string, close: string)
    requires ParseFramed(line, open, middle, textOpen, close) == Some(e)
    ensures line == open + e.path + middle + e.displayName + textOpen + e.displayName + close
    ensures '"' !in e.path
  {
    Reassemble(line, open, middle, e.displayName, textOpen, close);
  }

  /** Conversely, every line that reads back as an entry is that entry's list item. */
  lemma ParseItemSound(line: string, e: Entry)
    requires ParseItem(line) == Some(e)
    ensures line == ItemLine(e) && '"' !in e.path
  {
    ParseFramedSound(line, e, ItemOpen, ItemMiddle, ItemTextOpen, ItemClose);
  }
}
