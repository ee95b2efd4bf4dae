/**
 * The traversal both copies of `get_urls` share: walk the docket-report files
 * in the order given, then the items of each `docket_report`, and for each
 * item emit its direct link (if any) followed by the links of its exhibits,
 * in exhibit order. A missing `contents` or `number` key, or an exhibit with a
 * `link` but no `exhibit` key, raises `KeyError` and ends the whole walk.
 *
 * The records are taken as already parsed: a JSON value the source formats
 * with an f-string (`number`, `exhibit`) is given as its text. The walk takes
 * the name cleaner as a parameter `clean`; `get_urls` passes `cleanhtml`
 * (see `Cleaner`).
 */
module Extraction {
  import opened Wrappers
  import Sanitizer

  /** `cleanhtml`, for a given meaning of `\w`, as the walk uses it. */
  function Cleaner(isWord: char -> bool): (clean: string -> string)
    ensures forall s :: clean(s) == Sanitizer.CleanHtml(s, isWord)
  {
    s => Sanitizer.CleanHtml(s, isWord)
  }

  /** One entry of an item's `exhibits` list; each key may be absent. */
  datatype Exhibit = Exhibit(exhibit: Option<string>, link: Option<string>)

  /** One entry of a `docket_report` list; each key may be absent. */
  datatype Item = Item(
    contents: Option<string>,
    number: Option<string>,
    link: Option<string>,
    exhibits: Option<seq<Exhibit>>)

  /** A file of the input directory: its name and, once parsed, its `docket_report` if it has one. */
  datatype JsonFile = JsonFile(filename: string, docketReport: Option<seq<Item>>)

  /** Python's `KeyError`, naming the missing key. */
  datatype KeyError = KeyError(key: string)

  /** A link found in a file, the name its document is saved under, and the file it came from. */
  datatype Link = Link(url: string, name: string, filename: string)

  /**
   * `filename.lower().endswith(".json")`. Only the ASCII capitals lower-case to
   * `j`, `s`, `o` and `n`, so the test is on the last five characters.
   */
  predicate IsJsonFilename(filename: string) {
    && |filename| >= 5
    && filename[|filename| - 5] == '.'
    && filename[|filename| - 4] in {'j', 'J'}
    && filename[|filename| - 3] in {'s', 'S'}
    && filename[|filename| - 2] in {'o', 'O'}
    && filename[|filename| - 1] in {'n', 'N'}
  }

  /** The files that are opened and walked: a `.json` name and a `docket_report` key. */
  predicate Contributes(file: JsonFile) {
    IsJsonFilename(file.filename) && file.docketReport.Some?
  }

  /** `f"{docNum} - {docName}"`: the name of an item's own document. */
  function DirectName(number: string, docName: string): string {
    number + " - " + docName
  }

  /** `f"Exhibit {exhibitNumber} - {docNum} - {docName}"`: the name of an exhibit. */
  function ExhibitName(exhibitNumber: string, number: string, docName: string): string {
    "Exhibit " + exhibitNumber + " - " + number + " - " + docName
  }

  /** The links of two consecutive parts of the walk: the first `KeyError` wins. */
  function Concat(first: Result<seq<Link>, KeyError>, second: Result<seq<Link>, KeyError>): Result<seq<Link>, KeyError> {
    if first.Failure? then first
    else if second.Failure? then second
    else Ok(first.value + second.value)
  }

  /** One exhibit: no link, no output; a link without an `exhibit` key is a `KeyError`. */
  function ExhibitLink(filename: string, e: Exhibit, number: string, docName: string): Result<seq<Link>, KeyError> {
    if e.link.None? then Ok([])
    else if e.exhibit.None? then Failure(KeyError("exhibit"))
    else Ok([Link(e.link.value, ExhibitName(e.exhibit.value, number, docName), filename)])
  }

  /** The exhibits of one item, in list order. */
  function ExhibitsLinks(filename: string, exhibits: seq<Exhibit>, number: string, docName: string): Result<seq<Link>, KeyError>
  {
    if exhibits == [] then Ok([])
    else Concat(ExhibitsLinks(filename, exhibits[..|exhibits| - 1], number, docName),
                ExhibitLink(filename, exhibits[|exhibits| - 1], number, docName))
  }

  /**
   * One item: `contents` is read (and cleaned) first, then `number`; then the
   * direct link, then the exhibits.
   */
  function ItemLinks(filename: string, item: Item, clean: string -> string): Result<seq<Link>, KeyError> {
    if item.contents.None? then Failure(KeyError("contents"))
    else
      var docName := clean(item.contents.value);
      if item.number.None? then Failure(KeyError("number"))
      else
        var direct := if item.link.Some? then [Link(item.link.value, DirectName(item.number.value, docName), filename)] else [];
        if item.exhibits.None? then Ok(direct)
        else Concat(Ok(direct), ExhibitsLinks(filename, item.exhibits.value, item.number.value, docName))
  }

  /** The items of one `docket_report`, in list order. */
  function ItemsLinks(filename: string, items: seq<Item>, clean: string -> string): Result<seq<Link>, KeyError>
  {
    if items == [] then Ok([])
    else Concat(ItemsLinks(filename, items[..|items| - 1], clean), ItemLinks(filename, items[|items| - 1], clean))
  }

  /** One file of the directory: skipped unless it is a `.json` file with a `docket_report`. */
  function FileLinks(file: JsonFile, clean: string -> string): Result<seq<Link>, KeyError> {
    if Contributes(file) then ItemsLinks(file.filename, file.docketReport.value, clean) else Ok([])
  }

  /** The whole walk over the files, in the order given. */
  function Links(files: seq<JsonFile>, clean: string -> string): Result<seq<Link>, KeyError>
  {
    if files == [] then Ok([])
    else Concat(Links(files[..|files| - 1], clean), FileLinks(files[|files| - 1], clean))
  }

  // ---------------------------------------------------------------------------
  // The walk splits over a split of its input, so its output follows input order.

  lemma ConcatAssociative(x: Result<seq<Link>, KeyError>, y: Result<seq<Link>, KeyError>, z: Result<seq<Link>, KeyError>)
    ensures Concat(Concat(x, y), z) == Concat(x, Concat(y, z))
  {
    if x.Ok? && y.Ok? && z.Ok? {
      assert (x.value + y.value) + z.value == x.value + (y.value + z.value);
    }
  }

  lemma ConcatNothing(x: Result<seq<Link>, KeyError>)
    ensures Concat(x, Ok([])) == x
  {
    if x.Ok? {
      assert x.value + [] == x.value;
    }
  }

  lemma NothingConcat(x: Result<seq<Link>, KeyError>)
    ensures Concat(Ok([]), x) == x
  {
    if x.Ok? {
      assert [] + x.value == x.value;
    }
  }

  /** The exhibits `a + b` give the links of `a`, then those of `b`. */
  lemma {:induction false} ExhibitsLinksAppend(filename: string, a: seq<Exhibit>, b: seq<Exhibit>, number: string, docName: string)
    ensures ExhibitsLinks(filename, a + b, number, docName)
         == Concat(ExhibitsLinks(filename, a, number, docName), ExhibitsLinks(filename, b, number, docName))
    decreases |b|
  {
    if b == [] {
      assert a + b == a;
      ConcatNothing(ExhibitsLinks(filename, a, number, docName));
    } else {
      var front := b[..|b| - 1];
      assert (a + b)[..|a + b| - 1] == a + front;
      assert (a + b)[|a + b| - 1] == b[|b| - 1];
      ExhibitsLinksAppend(filename, a, front, number, docName);
      ConcatAssociative(ExhibitsLinks(filename, a, number, docName), ExhibitsLinks(filename, front, number, docName),
                        ExhibitLink(filename, b[|b| - 1], number, docName));
    }
  }

  /** The items `a + b` give the links of `a`, then those of `b`. */
  lemma {:induction false} ItemsLinksAppend(filename: string, a: seq<Item>, b: seq<Item>, clean: string -> string)
    ensures ItemsLinks(filename, a + b, clean) == Concat(ItemsLinks(filename, a, clean), ItemsLinks(filename, b, clean))
    decreases |b|
  {
    if b == [] {
      assert a + b == a;
      ConcatNothing(ItemsLinks(filename, a, clean));
    } else {
      var front := b[..|b| - 1];
      assert (a + b)[..|a + b| - 1] == a + front;
      assert (a + b)[|a + b| - 1] == b[|b| - 1];
      ItemsLinksAppend(filename, a, front, clean);
      ConcatAssociative(ItemsLinks(filename, a, clean), ItemsLinks(filename, front, clean), ItemLinks(filename, b[|b| - 1], clean));
    }
  }

  /** The files `a + b` give the links of `a`, then those of `b`: output follows file order. */
  lemma {:induction false} LinksAppend(a: seq<JsonFile>, b: seq<JsonFile>, clean: string -> string)
    ensures Links(a + b, clean) == Concat(Links(a, clean), Links(b, clean))
    decreases |b|
  {
    if b == [] {
      assert a + b == a;
      ConcatNothing(Links(a, clean));
    } else {
      var front := b[..|b| - 1];
      assert (a + b)[..|a + b| - 1] == a + front;
      assert (a + b)[|a + b| - 1] == b[|b| - 1];
      LinksAppend(a, front, clean);
      ConcatAssociative(Links(a, clean), Links(front, clean), FileLinks(b[|b| - 1], clean));
    }
  }

  /** One more file at the end appends its links. */
  lemma LinksSnoc(front: seq<JsonFile>, last: JsonFile, clean: string -> string)
    ensures Links(front + [last], clean) == Concat(Links(front, clean), FileLinks(last, clean))
  {
    assert (front + [last])[..|front|] == front;
  }

  /** A file that is not walked can be taken out of the input without changing the result. */
  lemma IgnoredFileChangesNothing(before: seq<JsonFile>, file: JsonFile, after: seq<JsonFile>, clean: string -> string)
    requires !Contributes(file)
    ensures Links(before + [file] + after, clean) == Links(before + after, clean)
  {
    LinksAppend(before + [file], after, clean);
    LinksAppend(before, [file], clean);
    assert [file][..0] == [];
    LinksAppend(before, after, clean);
    var x := Links(before, clean);
    if x.Ok? {
      assert x.value + [] == x.value;
    }
  }

  // ---------------------------------------------------------------------------
  // When the walk raises: exactly when some walked record lacks a key it reads.

  /** An exhibit is read without error unless it has a `link` but no `exhibit` key. */
  predicate ExhibitReadable(e: Exhibit) {
    e.link.Some? ==> e.exhibit.Some?
  }

  /**
   * An item is read without error when it has `contents` and `number` (whether
   * or not it has a link) and each of its exhibits is readable.
   */
  predicate ItemReadable(item: Item) {
    && item.contents.Some?
    && item.number.Some?
    && (item.exhibits.Some? ==> forall e :: e in item.exhibits.value ==> ExhibitReadable(e))
  }

  /** A file is read without error when it is skipped or all its items are readable. */
  predicate FileReadable(file: JsonFile) {
    Contributes(file) ==> forall item :: item in file.docketReport.value ==> ItemReadable(item)
  }

  lemma {:induction false} ExhibitsLinksSucceed(filename: string, exhibits: seq<Exhibit>, number: string, docName: string)
    ensures ExhibitsLinks(filename, exhibits, number, docName).Ok? <==> forall e :: e in exhibits ==> ExhibitReadable(e)
    decreases |exhibits|
  {
    if exhibits != [] {
      var front := exhibits[..|exhibits| - 1];
      var last := exhibits[|exhibits| - 1];
      assert exhibits == front + [last];
      ExhibitsLinksSucceed(filename, front, number, docName);
      assert (forall e :: e in front ==> ExhibitReadable(e)) && ExhibitReadable(last) ==> forall e :: e in exhibits ==> ExhibitReadable(e);
      assert (forall e :: e in exhibits ==> ExhibitReadable(e)) ==> (forall e :: e in front ==> ExhibitReadable(e)) && ExhibitReadable(last);
    }
  }

  lemma ItemLinksSucceed(filename: string, item: Item, clean: string -> string)
    ensures ItemLinks(filename, item, clean).Ok? <==> ItemReadable(item)
  {
    if item.contents.Some? && item.number.Some? && item.exhibits.Some? {
      ExhibitsLinksSucceed(filename, item.exhibits.value, item.number.value, clean(item.contents.value));
    }
  }

  lemma {:induction false} ItemsLinksSucceed(filename: string, items: seq<Item>, clean: string -> string)
    ensures ItemsLinks(filename, items, clean).Ok? <==> forall item :: item in items ==> ItemReadable(item)
    decreases |items|
  {
    if items != [] {
      var front := items[..|items| - 1];
      assert items == front + [items[|items| - 1]];
      ItemsLinksSucceed(filename, front, clean);
      ItemLinksSucceed(filename, items[|items| - 1], clean);
    }
  }

  /**
   * `get_urls` raises `KeyError` exactly when some `.json` file with a
   * `docket_report` holds an item without `contents` or `number`, or an
   * exhibit with a `link` but no `exhibit` key.
   */
  lemma {:induction false} LinksSucceed(files: seq<JsonFile>, clean: string -> string)
    ensures Links(files, clean).Ok? <==> forall file :: file in files ==> FileReadable(file)
    decreases |files|
  {
    if files != [] {
      var front := files[..|files| - 1];
      var last := files[|files| - 1];
      assert files == front + [last];
      LinksSucceed(front, clean);
      if Contributes(last) {
        ItemsLinksSucceed(last.filename, last.docketReport.value, clean);
      }
      assert (forall f :: f in front ==> FileReadable(f)) && FileReadable(last) ==> forall f :: f in files ==> FileReadable(f);
      assert (forall f :: f in files ==> FileReadable(f)) ==> (forall f :: f in front ==> FileReadable(f)) && FileReadable(last);
    }
  }

  // ---------------------------------------------------------------------------
  // Reading order: a reference listing of the links, front to back.

  /** What a readable exhibit contributes: its link, named after its `exhibit` key, if it has a link. */
  function ExhibitRef(filename: string, e: Exhibit, number: string, docName: string): seq<Link> {
    if e.link.Some? && e.exhibit.Some? then [Link(e.link.value, ExhibitName(e.exhibit.value, number, docName), filename)] else []
  }

  /** The exhibits' links, read from the front of the list. */
  function ExhibitsRef(filename: string, exhibits: seq<Exhibit>, number: string, docName: string): seq<Link> {
    if exhibits == [] then []
    else ExhibitRef(filename, exhibits[0], number, docName) + ExhibitsRef(filename, exhibits[1..], number, docName)
  }

  /** A readable item's own link, if any, named `{number} - {docName}`, then its exhibits' links. */
  function ItemRef(filename: string, item: Item, clean: string -> string): seq<Link> {
    if item.contents.None? || item.number.None? then []
    else
      var docName := clean(item.contents.value);
      (if item.link.Some? then [Link(item.link.value, DirectName(item.number.value, docName), filename)] else [])
        + (if item.exhibits.Some? then ExhibitsRef(filename, item.exhibits.value, item.number.value, docName) else [])
  }

  /** The items' links, read from the front of the `docket_report`. */
  function ItemsRef(filename: string, items: seq<Item>, clean: string -> string): seq<Link> {
    if items == [] then [] else ItemRef(filename, items[0], clean) + ItemsRef(filename, items[1..], clean)
  }

  /** The walked files' links, read from the front of the listing. */
  function FilesRef(files: seq<JsonFile>, clean: string -> string): seq<Link> {
    if files == [] then []
    else
      (if Contributes(files[0]) then ItemsRef(files[0].filename, files[0].docketReport.value, clean) else [])
        + FilesRef(files[1..], clean)
  }

  /** The exhibit loop returns the exhibits' links in list order, each with its name and file. */
  lemma {:induction false} ExhibitsLinksOrder(filename: string, exhibits: seq<Exhibit>, number: string, docName: string)
    requires ExhibitsLinks(filename, exhibits, number, docName).Ok?
    ensures ExhibitsLinks(filename, exhibits, number, docName).value == ExhibitsRef(filename, exhibits, number, docName)
    decreases |exhibits|
  {
    if exhibits != [] {
      var first, rest := [exhibits[0]], exhibits[1..];
      assert exhibits == first + rest;
      assert first[..0] == [];
      ExhibitsLinksAppend(filename, first, rest, number, docName);
      ExhibitsLinksOrder(filename, rest, number, docName);
    }
  }

  /** An item's own link comes before its exhibits' links. */
  lemma ItemLinksOrder(filename: string, item: Item, clean: string -> string)
    requires ItemLinks(filename, item, clean).Ok?
    ensures ItemLinks(filename, item, clean).value == ItemRef(filename, item, clean)
  {
    if item.exhibits.Some? {
      var docName := clean(item.contents.value);
      ExhibitsLinksOrder(filename, item.exhibits.value, item.number.value, docName);
    }
  }

  /** The item loop returns the items' links in `docket_report` order. */
  lemma {:induction false} ItemsLinksOrder(filename: string, items: seq<Item>, clean: string -> string)
    requires ItemsLinks(filename, items, clean).Ok?
    ensures ItemsLinks(filename, items, clean).value == ItemsRef(filename, items, clean)
    decreases |items|
  {
    if items != [] {
      var first, rest := [items[0]], items[1..];
      assert items == first + rest;
      assert first[..0] == [];
      NothingConcat(ItemLinks(filename, items[0], clean));
      ItemsLinksAppend(filename, first, rest, clean);
      ItemLinksOrder(filename, items[0], clean);
      ItemsLinksOrder(filename, rest, clean);
    }
  }

  /**
   * The links come out in reading order: files in the order given, items in
   * `docket_report` order, each item's own link before its exhibits'. Each
   * link carries its own name and its own file at its position.
   */
  lemma {:induction false} LinksOrder(files: seq<JsonFile>, clean: string -> string)
    requires Links(files, clean).Ok?
    ensures Links(files, clean).value == FilesRef(files, clean)
    decreases |files|
  {
    if files != [] {
      var first, rest := [files[0]], files[1..];
      assert files == first + rest;
      assert first[..0] == [];
      NothingConcat(FileLinks(files[0], clean));
      LinksAppend(first, rest, clean);
      if Contributes(files[0]) {
        ItemsLinksOrder(files[0].filename, files[0].docketReport.value, clean);
      }
      LinksOrder(rest, clean);
    }
  }

  // ---------------------------------------------------------------------------
  // Names: where each link comes from and what it is called.

  /** `l` is the link of an exhibit of the list that has both a `link` and an `exhibit` key. */
  predicate IsExhibitLink(l: Link, exhibits: seq<Exhibit>, number: string, docName: string, filename: string) {
    exists j :: 0 <= j < |exhibits| && ExhibitLinkAt(l, exhibits[j], number, docName, filename)
  }

  predicate ExhibitLinkAt(l: Link, e: Exhibit, number: string, docName: string, filename: string) {
    e.link.Some? && e.exhibit.Some? && l == Link(e.link.value, ExhibitName(e.exhibit.value, number, docName), filename)
  }

  /**
   * `l` comes from `item` of the file `filename`: it is the item's own link
   * named `{number} - {cleaned contents}`, or one of its exhibits' links.
   */
  predicate FromItem(l: Link, item: Item, filename: string, clean: string -> string) {
    && item.contents.Some?
    && item.number.Some?
    && ((item.link.Some? && l == Link(item.link.value, DirectName(item.number.value, clean(item.contents.value)), filename))
        || (item.exhibits.Some? && IsExhibitLink(l, item.exhibits.value, item.number.value, clean(item.contents.value), filename)))
  }

  /** `l` comes from an item of `file`, which is walked. */
  predicate FromFileAt(l: Link, file: JsonFile, clean: string -> string) {
    Contributes(file) && exists k :: 0 <= k < |file.docketReport.value| && FromItem(l, file.docketReport.value[k], file.filename, clean)
  }

  /** `l` comes from an item of a walked file of `files`. */
  predicate FromWalkedFile(l: Link, files: seq<JsonFile>, clean: string -> string) {
    exists j :: 0 <= j < |files| && FromFileAt(l, files[j], clean)
  }

  lemma {:induction false} ExhibitsLinksNamed(filename: string, exhibits: seq<Exhibit>, number: string, docName: string)
    requires ExhibitsLinks(filename, exhibits, number, docName).Ok?
    ensures var links := ExhibitsLinks(filename, exhibits, number, docName).value;
      forall i :: 0 <= i < |links| ==> IsExhibitLink(links[i], exhibits, number, docName, filename)
    decreases |exhibits|
  {
    if exhibits != [] {
      var front, last := exhibits[..|exhibits| - 1], exhibits[|exhibits| - 1];
      ExhibitsLinksNamed(filename, front, number, docName);
      var a := ExhibitsLinks(filename, front, number, docName).value;
      var links := ExhibitsLinks(filename, exhibits, number, docName).value;
      assert links == a + ExhibitLink(filename, last, number, docName).value;
      forall i | 0 <= i < |links|
        ensures IsExhibitLink(links[i], exhibits, number, docName, filename)
      {
        if i < |a| {
          var j :| 0 <= j < |front| && ExhibitLinkAt(a[i], front[j], number, docName, filename);
          assert exhibits[j] == front[j];
        } else {
          assert ExhibitLinkAt(links[i], exhibits[|exhibits| - 1], number, docName, filename);
        }
      }
    }
  }

  /**
   * An item's links: its own link first (when it has one), named
   * `{number} - {docName}`, then only links of its exhibits.
   */
  lemma ItemLinksNamed(filename: string, item: Item, clean: string -> string)
    requires ItemLinks(filename, item, clean).Ok?
    ensures item.contents.Some? && item.number.Some?
    ensures var links := ItemLinks(filename, item, clean).value;
      var docName := clean(item.contents.value);
      && (item.link.Some? ==> |links| > 0 && links[0] == Link(item.link.value, DirectName(item.number.value, docName), filename))
      && (forall i :: (if item.link.Some? then 1 else 0) <= i < |links| ==>
            item.exhibits.Some? && IsExhibitLink(links[i], item.exhibits.value, item.number.value, docName, filename))
      && (forall i :: 0 <= i < |links| ==> FromItem(links[i], item, filename, clean))
  {
    if item.exhibits.Some? {
      ExhibitsLinksNamed(filename, item.exhibits.value, item.number.value, clean(item.contents.value));
    }
  }

  lemma {:induction false} ItemsLinksFrom(filename: string, items: seq<Item>, clean: string -> string)
    requires ItemsLinks(filename, items, clean).Ok?
    ensures var links := ItemsLinks(filename, items, clean).value;
      forall i :: 0 <= i < |links| ==> exists k :: 0 <= k < |items| && FromItem(links[i], items[k], filename, clean)
    decreases |items|
  {
    if items != [] {
      var front, last := items[..|items| - 1], items[|items| - 1];
      ItemsLinksFrom(filename, front, clean);
      ItemLinksNamed(filename, last, clean);
      var a := ItemsLinks(filename, front, clean).value;
      var b := ItemLinks(filename, last, clean).value;
      var links := ItemsLinks(filename, items, clean).value;
      assert links == a + b;
      forall i | 0 <= i < |links|
        ensures exists k :: 0 <= k < |items| && FromItem(links[i], items[k], filename, clean)
      {
        if i < |a| {
          var k :| 0 <= k < |front| && FromItem(a[i], front[k], filename, clean);
          assert items[k] == front[k];
        } else {
          assert links[i] == b[i - |a|];
          assert FromItem(links[i], items[|items| - 1], filename, clean);
        }
      }
    }
  }

  /**
   * Every link comes from an item of a walked file (a `.json` name with a
   * `docket_report`), carries that file's name, and is named after that item:
   * `{number} - {docName}` for the item's own link, `Exhibit {exhibit} -
   * {number} - {docName}` for an exhibit's, with `docName` the cleaned
   * `contents`.
   */
  lemma {:induction false} LinksFrom(files: seq<JsonFile>, clean: string -> string)
    requires Links(files, clean).Ok?
    ensures var links := Links(files, clean).value;
      forall i :: 0 <= i < |links| ==> FromWalkedFile(links[i], files, clean)
    decreases |files|
  {
    if files != [] {
      var front, last := files[..|files| - 1], files[|files| - 1];
      LinksFrom(front, clean);
      FileLinksFrom(last, clean);
      assert files == front + [last];
      FromWalkedFilesAppend(Links(front, clean).value, FileLinks(last, clean).value, front, last, clean);
    }
  }

  /** Every link of a file that does not raise comes from one of its items. */
  lemma FileLinksFrom(file: JsonFile, clean: string -> string)
    requires FileLinks(file, clean).Ok?
    ensures var links := FileLinks(file, clean).value;
      forall i :: 0 <= i < |links| ==> FromFileAt(links[i], file, clean)
  {
    if Contributes(file) {
      ItemsLinksFrom(file.filename, file.docketReport.value, clean);
    }
  }

  /** Links from the earlier files followed by links from the last file all come from the whole listing. */
  lemma FromWalkedFilesAppend(a: seq<Link>, b: seq<Link>, front: seq<JsonFile>, last: JsonFile, clean: string -> string)
    requires forall i :: 0 <= i < |a| ==> FromWalkedFile(a[i], front, clean)
    requires forall i :: 0 <= i < |b| ==> FromFileAt(b[i], last, clean)
    ensures forall i :: 0 <= i < |a + b| ==> FromWalkedFile((a + b)[i], front + [last], clean)
  {
    var files := front + [last];
    assert files[|front|] == last;
    forall i | 0 <= i < |a + b|
      ensures FromWalkedFile((a + b)[i], files, clean)
    {
      if i < |a| {
        var j :| 0 <= j < |front| && FromFileAt(a[i], front[j], clean);
        assert files[j] == front[j];
      } else {
        assert (a + b)[i] == b[i - |a|];
      }
    }
  }

  // ---------------------------------------------------------------------------
  // The first `KeyError` ends the walk: what raises is what the walk returns.

  /** An exhibit that raises, reached with no error before it, is the outcome for the whole list. */
  lemma ExhibitErrorEndsExhibits(filename: string, exhibits: seq<Exhibit>, k: nat, number: string, docName: string)
    requires k < |exhibits| && ExhibitLink(filename, exhibits[k], number, docName).Failure?
    requires ExhibitsLinks(filename, exhibits[..k], number, docName).Ok?
    ensures ExhibitsLinks(filename, exhibits, number, docName) == ExhibitLink(filename, exhibits[k], number, docName)
  {
    var upTo, rest := exhibits[..k + 1], exhibits[k + 1..];
    assert upTo[..k] == exhibits[..k];
    assert ExhibitsLinks(filename, upTo, number, docName) == ExhibitLink(filename, exhibits[k], number, docName);
    ExhibitsLinksAppend(filename, upTo, rest, number, docName);
    assert upTo + rest == exhibits;
  }

  /** An item that raises, reached with no error before it, is the outcome for the whole `docket_report`. */
  lemma ItemErrorEndsItems(filename: string, items: seq<Item>, j: nat, clean: string -> string)
    requires j < |items| && ItemLinks(filename, items[j], clean).Failure?
    requires ItemsLinks(filename, items[..j], clean).Ok?
    ensures ItemsLinks(filename, items, clean) == ItemLinks(filename, items[j], clean)
  {
    var upTo, rest := items[..j + 1], items[j + 1..];
    assert upTo[..j] == items[..j];
    assert ItemsLinks(filename, upTo, clean) == ItemLinks(filename, items[j], clean);
    ItemsLinksAppend(filename, upTo, rest, clean);
    assert upTo + rest == items;
  }

  /** A file that raises, reached with no error before it, is the outcome of the whole walk. */
  lemma FileErrorEndsWalk(files: seq<JsonFile>, i: nat, clean: string -> string)
    requires i < |files| && FileLinks(files[i], clean).Failure?
    requires Links(files[..i], clean).Ok?
    ensures Links(files, clean) == FileLinks(files[i], clean)
  {
    SplitAround(files, i);
    FileErrorEndsFiles(files[..i], files[i], files[i + 1..], clean);
  }

  /** A sequence is its part before `i`, its element at `i` and its part after. */
  lemma SplitAround<T>(xs: seq<T>, i: nat)
    requires i < |xs|
    ensures xs == xs[..i] + [xs[i]] + xs[i + 1..]
  {
  }

  /** The same, with the listing split around the file that raises. */
  lemma FileErrorEndsFiles(front: seq<JsonFile>, file: JsonFile, rest: seq<JsonFile>, clean: string -> string)
    requires Links(front, clean).Ok? && FileLinks(file, clean).Failure?
    ensures Links(front + [file] + rest, clean) == FileLinks(file, clean)
  {
    LinksSnoc(front, file, clean);
    LinksAppend(front + [file], rest, clean);
  }

  // ---------------------------------------------------------------------------
  // One step of each loop of `get_urls`.

  /** Reading one more readable exhibit appends its link, if it has one. */
  lemma ExhibitsLinksStep(filename: string, exhibits: seq<Exhibit>, k: nat, number: string, docName: string)
    requires k < |exhibits| && ExhibitReadable(exhibits[k])
    requires ExhibitsLinks(filename, exhibits[..k], number, docName).Ok?
    ensures ExhibitsLinks(filename, exhibits[..k + 1], number, docName)
         == Ok(ExhibitsLinks(filename, exhibits[..k], number, docName).value + ExhibitLink(filename, exhibits[k], number, docName).value)
  {
    assert exhibits[..k + 1][..k] == exhibits[..k];
  }

  /** Reading one more item that does not raise appends its links. */
  lemma ItemsLinksStep(filename: string, items: seq<Item>, j: nat, clean: string -> string)
    requires j < |items| && ItemLinks(filename, items[j], clean).Ok?
    requires ItemsLinks(filename, items[..j], clean).Ok?
    ensures ItemsLinks(filename, items[..j + 1], clean)
         == Ok(ItemsLinks(filename, items[..j], clean).value + ItemLinks(filename, items[j], clean).value)
  {
    assert items[..j + 1][..j] == items[..j];
  }

  /** Reading one more file that does not raise appends its links. */
  lemma LinksStep(files: seq<JsonFile>, i: nat, clean: string -> string)
    requires i < |files| && FileLinks(files[i], clean).Ok?
    requires Links(files[..i], clean).Ok?
    ensures Links(files[..i + 1], clean) == Ok(Links(files[..i], clean).value + FileLinks(files[i], clean).value)
  {
    assert files[..i + 1][..i] == files[..i];
  }
}
