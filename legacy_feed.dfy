/**
 * The day's list in the earlier version of the program (Rac1.py, 1.0.0):
 * `get_podcasts_list` downloads the XML feed of a `DD-MM-YY` date and
 * `parse_my_xml` derives one entry per `<item>` (title, link, description,
 * length in KiB and hour) and returns the entries last item first.
 *
 * The feed server is the parameter `feed` (a date to the response), and
 * `ElementTree` with its `find` lookups is the parameter `parseXml`, which
 * yields the items of a well-formed feed in document order, or nothing when
 * the document cannot be parsed or an item lacks a child the program reads.
 */
module LegacyFeed {
  import opened Common
  import opened Text

  /** What the program reads of one `<item>`: the texts of its `title`,
      `link` and `description` children and the `length` attribute of its
      `enclosure`. */
  datatype XmlItem = XmlItem(title: string, link: string, description: string, length: string)

  /** One entry of the list `parse_my_xml` builds. */
  datatype Item = Item(title: string, link: string, description: string, length: string, hora: int)

  /** One snapshot of the feed server: the response to the request for the
      feed of a date. */
  type Feed = string -> Response

  /** `int(description.split(' ')[-1][:-1])`: the last word of the
      description without its final character, read as an integer. */
  function ItemHour(description: string): Result<int> {
    ToInt(DropLast(AfterLast(description, ' ')), "hora")
  }

  /** A description ending in a space and an hour followed by one letter
      (`... a les 08h`) yields that hour. */
  lemma ItemHourOf(pre: string, h: int, unit: char)
    requires unit != ' '
    ensures ItemHour(pre + " " + IntToString(h) + [unit]) == Ok(h)
  {
    var w := IntToString(h) + [unit];
    IntToStringChars(h);
    assert ' ' !in w by {
      assert forall k :: 0 <= k < |w| - 1 ==> w[k] == IntToString(h)[k];
    }
    AfterLastOf(pre, ' ', w);
    assert pre + " " + IntToString(h) + [unit] == pre + [' '] + w;
    assert DropLast(w) == IntToString(h);
    IntToStringRoundTrip(h);
  }

  /** A description whose last word, without its final character, is not
      an integer is refused. */
  lemma ItemHourRefused(pre: string, w: string)
    requires ' ' !in w && !IsInt(DropLast(w))
    ensures ItemHour(pre + " " + w) == Err(Malformed("hora"))
  {
    AfterLastOf(pre, ' ', w);
    assert pre + " " + w == pre + [' '] + w;
  }

  /** `title.split('(')[0].strip()`: the title up to its first `(`, without
      surrounding whitespace. */
  function ItemTitle(title: string): (r: string)
    ensures '(' !in r
  {
    StripWithout(BeforeFirst(title, '('), '(');
    Strip(BeforeFirst(title, '('))
  }

  /** The name before the parenthesis, stripped, is the title. */
  lemma ItemTitleOf(name: string, rest: string)
    requires '(' !in name
    ensures ItemTitle(name + "(" + rest) == Strip(name)
  {
    BeforeFirstOf(name, '(', rest);
    assert name + "(" + rest == name + ['('] + rest;
  }

  /** A title without a parenthesis is only stripped. */
  lemma ItemTitleWhole(title: string)
    requires '(' !in title
    ensures ItemTitle(title) == Strip(title)
  {
    SplitWhole(title, '(');
  }

  /** Python 3's `int(n / 1024)`: the quotient rounded toward zero. */
  function KiB(n: int): (q: int)
    ensures n >= 0 ==> q >= 0 && q * 1024 <= n < (q + 1) * 1024
    ensures n < 0 ==> q <= 0 && -q * 1024 <= -n < (-q + 1) * 1024
  {
    if n >= 0 then n / 1024 else -((-n) / 1024)
  }

  /** `"{}".format(int(int(length) / 1024))`: the enclosure length in
      whole KiB, written in decimal; a length that is not an integer is
      refused. */
  function LengthText(length: string): (r: Result<string>)
    ensures r.Ok? <==> IsInt(length)
    ensures r.Err? ==> r.error == Malformed("length")
    ensures r.Ok? ==> IsInt(r.value) && IntValue(r.value) == KiB(IntValue(length))
  {
    var n :- ToInt(length, "length");
    IntToStringRoundTrip(KiB(n));
    Ok(IntToString(KiB(n)))
  }

  /** A byte count written in decimal becomes the decimal number of whole
      KiB in it. */
  lemma LengthTextOf(n: nat)
    ensures LengthText(IntToString(n)) == Ok(IntToString(n / 1024))
  {
    IntToStringRoundTrip(n);
  }

  /** The entry `parse_my_xml` derives from one item. The keyword arguments
      are evaluated in order, so the length is read before the hour. */
  function DeriveItem(x: XmlItem): Result<Item> {
    var title := ItemTitle(x.title);
    var length :- LengthText(x.length);
    var hora :- ItemHour(x.description);
    Ok(Item(title, x.link, x.description, length, hora))
  }

  /** An item is refused exactly when its length or its hour is not an
      integer, and a bad length is reported first. */
  lemma DeriveItemFails(x: XmlItem)
    ensures DeriveItem(x).Ok? <==> IsInt(x.length) && ItemHour(x.description).Ok?
    ensures !IsInt(x.length) ==> DeriveItem(x) == Err(Malformed("length"))
    ensures IsInt(x.length) && ItemHour(x.description).Err? ==> DeriveItem(x) == Err(Malformed("hora"))
  {
  }

  /** An item written the way the feed writes them yields the stripped
      name, the link and description as they are, the size in KiB and the
      hour. */
  lemma DeriveItemOf(name: string, rest: string, link: string, pre: string, h: int, bytes: nat)
    requires '(' !in name
    ensures var x := XmlItem(name + "(" + rest, link, pre + " " + IntToString(h) + "h", IntToString(bytes));
            DeriveItem(x) == Ok(Item(Strip(name), link, x.description, IntToString(bytes / 1024), h))
  {
    ItemTitleOf(name, rest);
    ItemHourOf(pre, h, 'h');
    LengthTextOf(bytes);
  }

  /** The entries of the items in document order; the first item that
      cannot be derived ends the program. */
  function DeriveItems(xs: seq<XmlItem>): Result<seq<Item>> {
    MapAll(xs, DeriveItem)
  }

  /** The derivation fails exactly when some item cannot be derived, and
      then with the failure of the first such item. */
  lemma DeriveItemsSpec(xs: seq<XmlItem>)
    ensures DeriveItems(xs).Ok? ==>
              |DeriveItems(xs).value| == |xs| &&
              forall i :: 0 <= i < |xs| ==> DeriveItem(xs[i]) == Ok(DeriveItems(xs).value[i])
    ensures DeriveItems(xs).Err? <==> exists i :: 0 <= i < |xs| && DeriveItem(xs[i]).Err?
    ensures DeriveItems(xs).Err? ==>
              exists i :: (0 <= i < |xs| && DeriveItem(xs[i]) == Err(DeriveItems(xs).error) &&
                           forall j :: 0 <= j < i ==> DeriveItem(xs[j]).Ok?)
  {
    MapAllFails(xs, DeriveItem);
  }

  /** What `parse_my_xml` returns for a document: the entries in reverse
      document order. */
  function ParsedItems(data: string, parseXml: string -> Option<seq<XmlItem>>): Result<seq<Item>> {
    match parseXml(data)
    case None => Err(Malformed("xml"))
    case Some(xs) =>
      var items :- DeriveItems(xs);
      Ok(Reversed(items))
  }

  /** The list holds one entry per item, the last item's first: entry `i`
      comes from item `j` of the document when `i + j` is one less than the
      number of items. */
  lemma ParsedItemsReversed(data: string, parseXml: string -> Option<seq<XmlItem>>)
    requires ParsedItems(data, parseXml).Ok?
    ensures parseXml(data).Some?
    ensures |ParsedItems(data, parseXml).value| == |parseXml(data).value|
    ensures forall i, j :: 0 <= i < |ParsedItems(data, parseXml).value| && 0 <= j < |parseXml(data).value| &&
                           i + j == |parseXml(data).value| - 1 ==>
                             DeriveItem(parseXml(data).value[j]) == Ok(ParsedItems(data, parseXml).value[i])
  {
    var xs := parseXml(data).value;
    DeriveItemsSpec(xs);
    var derived := DeriveItems(xs).value;
    var items := ParsedItems(data, parseXml).value;
    assert items == Reversed(derived);
    forall i, j | 0 <= i < |items| && 0 <= j < |xs| && i + j == |xs| - 1
      ensures DeriveItem(xs[j]) == Ok(items[i])
    {
      ReversedAt(derived, i, j);
    }
  }

  /** `parse_my_xml`: append the entry of each item in turn, then reverse
      the list. */
  method ParseMyXml(data: string, parseXml: string -> Option<seq<XmlItem>>) returns (r: Result<seq<Item>>)
    ensures r == ParsedItems(data, parseXml)
  {
    var parsed := parseXml(data);
    if parsed.None? {
      return Err(Malformed("xml"));
    }
    var xs := parsed.value;
    var list: seq<Item> := [];
    var i := 0;
    while i < |xs|
      invariant 0 <= i <= |xs|
      invariant MapAll(xs[..i], DeriveItem) == Ok(list)
    {
      var item := DeriveItem(xs[i]);
      if item.Err? {
        MapAllStepFails(xs, i, DeriveItem, list);
        return Err(item.error);
      }
      MapAllSnoc(xs, i, DeriveItem, list, item.value);
      list := list + [item.value];
      i := i + 1;
    }
    assert xs[..i] == xs;
    r := Ok(Reversed(list));
  }

  /** `get_podcasts_list`: the feed of the date, or the download failure
      that ends the program. */
  function FeedList(date: string, feed: Feed, parseXml: string -> Option<seq<XmlItem>>): Result<seq<Item>> {
    var resp := feed(date);
    if resp.status != 200 then Err(Download(resp.status)) else ParsedItems(resp.body, parseXml)
  }

  method GetPodcastsList(date: string, feed: Feed, parseXml: string -> Option<seq<XmlItem>>) returns (r: Result<seq<Item>>)
    ensures r == FeedList(date, feed, parseXml)
  {
    var resp := feed(date);
    if resp.status != 200 {
      return Err(Download(resp.status));
    }
    r := ParseMyXml(resp.body, parseXml);
  }
}
