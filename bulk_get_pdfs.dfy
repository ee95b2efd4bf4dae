/**
 * `get_urls` of the bulk-download tool: the links of the walk, each packed
 * with the folder named after its JSON file (every `.json` removed, in any
 * case) and with the output path and client matter the user chose, which the
 * download threads cannot read as globals.
 */
module BulkGetPdfs {
  import opened Wrappers
  import Sanitizer
  import opened Extraction

  /** `(link, link_filename, base_filename, PDF_OUTPUT_PATH, CLIENT_MATTER)`. */
  datatype Task = Task(link: string, fileName: string, folderName: string, outputPath: string, clientMatter: string)

  /**
   * A match of `re.escape('.json')` under `re.IGNORECASE` starts at `i`.
   * Python's case-insensitive matching also takes U+017F LATIN SMALL LETTER
   * LONG S for `s`.
   */
  predicate JsonAt(s: string, i: nat) {
    && i + 5 <= |s|
    && s[i] == '.'
    && s[i + 1] in {'j', 'J'}
    && s[i + 2] in {'s', 'S', '\U{017F}'}
    && s[i + 3] in {'o', 'O'}
    && s[i + 4] in {'n', 'N'}
  }

  /**
   * `text_to_remove.sub("", filename)`: every match, scanning left to right
   * without overlap, is removed, wherever it is in the name.
   */
  function RemoveJson(s: string): (r: string)
    ensures |r| <= |s|
    decreases |s|
  {
    if s == [] then []
    else if JsonAt(s, 0) then RemoveJson(s[5..])
    else [s[0]] + RemoveJson(s[1..])
  }

  /** A name with no `.json` in it names its own folder. */
  lemma {:induction false} RemoveJsonNoMatch(s: string)
    requires forall i: nat :: !JsonAt(s, i)
    ensures RemoveJson(s) == s
    decreases |s|
  {
    if s != [] {
      assert !JsonAt(s, 0);
      forall i: nat
        ensures !JsonAt(s[1..], i)
      {
        assert !JsonAt(s, i + 1);
      }
      RemoveJsonNoMatch(s[1..]);
      assert s == [s[0]] + s[1..];
    }
  }

  /**
   * `stem.json` (in any case) is stored in the folder `stem` when `.json` does
   * not occur in the stem itself.
   */
  lemma {:induction false} RemoveJsonStem(stem: string, ext: string)
    requires |ext| == 5 && JsonAt(ext, 0)
    requires forall i: nat :: !JsonAt(stem, i)
    ensures RemoveJson(stem + ext) == stem
    decreases |stem|
  {
    if stem == [] {
      assert stem + ext == ext;
      assert ext[5..] == [];
    } else {
      var s := stem + ext;
      if |stem| >= 5 {
        assert s[..5] == stem[..5];
        assert !JsonAt(stem, 0);
      } else {
        assert s[|stem|] == '.';
      }
      assert !JsonAt(s, 0);
      forall i: nat
        ensures !JsonAt(stem[1..], i)
      {
        assert !JsonAt(stem, i + 1);
      }
      assert s[1..] == stem[1..] + ext;
      RemoveJsonStem(stem[1..], ext);
      assert stem == [stem[0]] + stem[1..];
    }
  }

  /**
   * Every match is removed, not only a final one: up to the first `.json`
   * (in any case) the name is kept, the match is dropped, and the rest is
   * scanned on its own.
   */
  lemma {:induction false} RemoveJsonMatch(p: string, ext: string, q: string)
    requires forall i: nat :: !JsonAt(p, i)
    requires |ext| == 5 && JsonAt(ext, 0)
    ensures RemoveJson(p + ext + q) == p + RemoveJson(q)
    decreases |p|
  {
    var s := p + ext + q;
    if p == [] {
      assert s == ext + q;
      assert s[5..] == q;
    } else {
      assert s == p + (ext + q);
      NoMatchBeforeDot(p, ext + q);
      NoMatchInTail(p);
      assert s[1..] == p[1..] + ext + q;
      RemoveJsonMatch(p[1..], ext, q);
      assert p == [p[0]] + p[1..];
    }
  }

  /** A name with no match, followed by a dot, has no match at its start. */
  lemma NoMatchBeforeDot(p: string, r: string)
    requires p != [] && forall i: nat :: !JsonAt(p, i)
    requires r != [] && r[0] == '.'
    ensures !JsonAt(p + r, 0)
  {
    var s := p + r;
    if |p| >= 5 {
      assert s[..5] == p[..5];
      assert !JsonAt(p, 0);
    } else {
      assert s[|p|] == '.';
    }
  }

  /** Dropping the first character of a name with no match leaves none. */
  lemma NoMatchInTail(p: string)
    requires p != [] && forall i: nat :: !JsonAt(p, i)
    ensures forall i: nat :: !JsonAt(p[1..], i)
  {
    forall i: nat
      ensures !JsonAt(p[1..], i)
    {
      assert !JsonAt(p, i + 1);
    }
  }

  /** `a.json.b.json` is stored in the folder `a.b`: both matches go. */
  lemma RemoveJsonTwice()
    ensures RemoveJson("a.json.b.json") == "a.b"
  {
    assert "a.json.b.json" == "a" + ".json" + ".b.json";
    assert JsonAt(".json", 0);
    RemoveJsonMatch("a", ".json", ".b.json");
    assert ".b.json" == ".b" + ".json";
    RemoveJsonStem(".b", ".json");
    assert "a" + ".b" == "a.b";
  }

  /** The job for one link of the walk. */
  function TaskOf(l: Link, outputPath: string, clientMatter: string): Task {
    Task(l.url, l.name, RemoveJson(l.filename), outputPath, clientMatter)
  }

  /** One job per link, in the links' order. */
  function ToTasks(links: seq<Link>, outputPath: string, clientMatter: string): (r: seq<Task>)
    ensures |r| == |links|
    ensures forall i :: 0 <= i < |links| ==> r[i] == TaskOf(links[i], outputPath, clientMatter)
  {
    if links == [] then [] else [TaskOf(links[0], outputPath, clientMatter)] + ToTasks(links[1..], outputPath, clientMatter)
  }

  /** A walk outcome with each link packed as a job. */
  function MapTasks(r: Result<seq<Link>, KeyError>, outputPath: string, clientMatter: string): Result<seq<Task>, KeyError> {
    match r
    case Failure(e) => Failure(e)
    case Ok(links) => Ok(ToTasks(links, outputPath, clientMatter))
  }

  /** What `get_urls` returns, or the `KeyError` it raises. */
  function Tasks(files: seq<JsonFile>, outputPath: string, clientMatter: string, isWord: char -> bool): Result<seq<Task>, KeyError> {
    MapTasks(Links(files, Cleaner(isWord)), outputPath, clientMatter)
  }

  /** Packing one more link appends its job. */
  lemma ToTasksSnoc(links: seq<Link>, l: Link, outputPath: string, clientMatter: string)
    ensures ToTasks(links + [l], outputPath, clientMatter) == ToTasks(links, outputPath, clientMatter) + [TaskOf(l, outputPath, clientMatter)]
  {
    ToTasksAppend(links, [l], outputPath, clientMatter);
  }

  /** Packing distributes over appending link lists. */
  lemma {:induction false} ToTasksAppend(a: seq<Link>, b: seq<Link>, outputPath: string, clientMatter: string)
    ensures ToTasks(a + b, outputPath, clientMatter) == ToTasks(a, outputPath, clientMatter) + ToTasks(b, outputPath, clientMatter)
    decreases |a|
  {
    if a == [] {
      assert a + b == b;
    } else {
      assert (a + b)[0] == a[0];
      assert (a + b)[1..] == a[1..] + b;
      ToTasksAppend(a[1..], b, outputPath, clientMatter);
    }
  }

  /** The loop over one item's `exhibits`, packing each exhibit link with the file's folder. */
  method ExhibitsTasks(filename: string, baseFilename: string, exhibits: seq<Exhibit>, docNum: string, docName: string,
                       outputPath: string, clientMatter: string)
    returns (r: Result<seq<Task>, KeyError>)
    requires baseFilename == RemoveJson(filename)
    ensures r == MapTasks(ExhibitsLinks(filename, exhibits, docNum, docName), outputPath, clientMatter)
  {
    var pdfList: seq<Task> := [];
    ghost var acc: seq<Link> := [];
    var k := 0;
    while k < |exhibits|
      invariant k <= |exhibits|
      invariant ExhibitsLinks(filename, exhibits[..k], docNum, docName) == Ok(acc)
      invariant pdfList == ToTasks(acc, outputPath, clientMatter)
    {
      var exhibit := exhibits[k];
      if exhibit.link.Some? {
        if exhibit.exhibit.None? {
          ExhibitErrorEndsExhibits(filename, exhibits, k, docNum, docName);
          return Failure(KeyError("exhibit"));
        }
        var exhibitNumber := exhibit.exhibit.value;
        var exhibitLink := exhibit.link.value;
        var exhibitName := ExhibitName(exhibitNumber, docNum, docName);
        ToTasksSnoc(acc, Link(exhibitLink, exhibitName, filename), outputPath, clientMatter);
        pdfList := pdfList + [Task(exhibitLink, exhibitName, baseFilename, outputPath, clientMatter)];
      }
      ExhibitsLinksStep(filename, exhibits, k, docNum, docName);
      acc := acc + ExhibitLink(filename, exhibit, docNum, docName).value;
      k := k + 1;
    }
    assert exhibits[..k] == exhibits;
    return Ok(pdfList);
  }

  /**
   * The body of the loop over a `docket_report`, for one item: read
   * `contents` (cleaned by `clean`, `cleanhtml` when called from `GetUrls`)
   * and `number`, then pack the item's own link and its exhibits'.
   */
  method ItemTasks(filename: string, baseFilename: string, item: Item,
                   outputPath: string, clientMatter: string, clean: string -> string)
    returns (r: Result<seq<Task>, KeyError>)
    requires baseFilename == RemoveJson(filename)
    ensures r == MapTasks(ItemLinks(filename, item, clean), outputPath, clientMatter)
  {
    if item.contents.None? {
      return Failure(KeyError("contents"));
    }
    var docName := clean(item.contents.value);
    if item.number.None? {
      return Failure(KeyError("number"));
    }
    var docNum := item.number.value;
    var pdfList: seq<Task> := [];
    ghost var itemLinks: seq<Link> := [];
    if item.link.Some? {
      var link := item.link.value;
      var linkFilename := DirectName(docNum, docName);
      itemLinks := [Link(link, linkFilename, filename)];
      pdfList := [Task(link, linkFilename, baseFilename, outputPath, clientMatter)];
    }
    assert pdfList == ToTasks(itemLinks, outputPath, clientMatter);
    if item.exhibits.Some? {
      var exhibitTasks := ExhibitsTasks(filename, baseFilename, item.exhibits.value, docNum, docName, outputPath, clientMatter);
      if exhibitTasks.Failure? {
        return Failure(exhibitTasks.error);
      }
      ghost var exhibitLinks := ExhibitsLinks(filename, item.exhibits.value, docNum, docName).value;
      ToTasksAppend(itemLinks, exhibitLinks, outputPath, clientMatter);
      pdfList := pdfList + exhibitTasks.value;
      itemLinks := itemLinks + exhibitLinks;
    }
    assert ItemLinks(filename, item, clean) == Ok(itemLinks);
    return Ok(pdfList);
  }

  /** The loop over one `docket_report`, item by item, in list order. */
  method ItemsTasks(filename: string, baseFilename: string, docketReport: seq<Item>,
                    outputPath: string, clientMatter: string, clean: string -> string)
    returns (r: Result<seq<Task>, KeyError>)
    requires baseFilename == RemoveJson(filename)
    ensures r == MapTasks(ItemsLinks(filename, docketReport, clean), outputPath, clientMatter)
  {
    var pdfList: seq<Task> := [];
    ghost var acc: seq<Link> := [];
    var j := 0;
    while j < |docketReport|
      invariant j <= |docketReport|
      invariant ItemsLinks(filename, docketReport[..j], clean) == Ok(acc)
      invariant pdfList == ToTasks(acc, outputPath, clientMatter)
    {
      var itemTasks := ItemTasks(filename, baseFilename, docketReport[j], outputPath, clientMatter, clean);
      if itemTasks.Failure? {
        ItemErrorEndsItems(filename, docketReport, j, clean);
        return Failure(itemTasks.error);
      }
      ghost var itemLinks := ItemLinks(filename, docketReport[j], clean).value;
      ToTasksAppend(acc, itemLinks, outputPath, clientMatter);
      ItemsLinksStep(filename, docketReport, j, clean);
      pdfList := pdfList + itemTasks.value;
      acc := acc + itemLinks;
      j := j + 1;
    }
    assert docketReport[..j] == docketReport;
    return Ok(pdfList);
  }

  /**
   * `get_urls`, with the directory listing given as the parsed files in
   * listing order, and `PDF_OUTPUT_PATH` and `CLIENT_MATTER` as parameters.
   */
  method GetUrls(files: seq<JsonFile>, outputPath: string, clientMatter: string, isWord: char -> bool)
    returns (r: Result<seq<Task>, KeyError>)
    ensures r == Tasks(files, outputPath, clientMatter, isWord)
  {
    var clean := Cleaner(isWord);
    var pdfList: seq<Task> := [];
    ghost var acc: seq<Link> := [];
    var i := 0;
    while i < |files|
      invariant i <= |files|
      invariant Links(files[..i], clean) == Ok(acc)
      invariant pdfList == ToTasks(acc, outputPath, clientMatter)
    {
      var filename := files[i].filename;
      ghost var fileLinks: seq<Link> := [];
      if IsJsonFilename(filename) {
        var baseFilename := RemoveJson(filename);
        if files[i].docketReport.Some? {
          var itemTasks := ItemsTasks(filename, baseFilename, files[i].docketReport.value, outputPath, clientMatter, clean);
          if itemTasks.Failure? {
            FileErrorEndsWalk(files, i, clean);
            return Failure(itemTasks.error);
          }
          fileLinks := ItemsLinks(filename, files[i].docketReport.value, clean).value;
          ToTasksAppend(acc, fileLinks, outputPath, clientMatter);
          pdfList := pdfList + itemTasks.value;
        }
      }
      LinksStep(files, i, clean);
      acc := acc + fileLinks;
      i := i + 1;
    }
    assert files[..i] == files;
    return Ok(pdfList);
  }

  // ---------------------------------------------------------------------------
  // What `get_urls` promises.

  /**
   * `get_urls` raises `KeyError` exactly when some `.json` file with a
   * `docket_report` has an item without `contents` or `number` (even one with
   * no link), or an exhibit with a `link` but no `exhibit` key.
   */
  lemma TasksFailure(files: seq<JsonFile>, outputPath: string, clientMatter: string, isWord: char -> bool)
    ensures Tasks(files, outputPath, clientMatter, isWord).Failure? <==> exists file :: file in files && !FileReadable(file)
  {
    LinksSucceed(files, Cleaner(isWord));
  }

  /**
   * The jobs come in reading order (file, then item, then the item's own link
   * before its exhibits' in list order), one per item with a `link` and one
   * per exhibit with a `link`, each with its own name and folder.
   */
  lemma TasksOrder(files: seq<JsonFile>, outputPath: string, clientMatter: string, isWord: char -> bool)
    requires Tasks(files, outputPath, clientMatter, isWord).Ok?
    ensures Tasks(files, outputPath, clientMatter, isWord).value == ToTasks(FilesRef(files, Cleaner(isWord)), outputPath, clientMatter)
  {
    LinksOrder(files, Cleaner(isWord));
  }

  /**
   * Every job carries the given output path and client matter, and comes from
   * an item of a walked file: its name is `{number} - {cleanhtml(contents)}`
   * or `Exhibit {exhibit} - {number} - {cleanhtml(contents)}` for that item,
   * and its folder is that file's name with every `.json` removed.
   */
  lemma TasksNamed(files: seq<JsonFile>, outputPath: string, clientMatter: string, isWord: char -> bool)
    requires Tasks(files, outputPath, clientMatter, isWord).Ok?
    ensures var tasks := Tasks(files, outputPath, clientMatter, isWord).value;
      forall i :: 0 <= i < |tasks| ==>
        && tasks[i].outputPath == outputPath
        && tasks[i].clientMatter == clientMatter
        && exists j :: 0 <= j < |files|
             && FromFileAt(Link(tasks[i].link, tasks[i].fileName, files[j].filename), files[j], Cleaner(isWord))
             && tasks[i].folderName == RemoveJson(files[j].filename)
  {
    var clean := Cleaner(isWord);
    LinksFrom(files, clean);
    var links := Links(files, clean).value;
    var tasks := Tasks(files, outputPath, clientMatter, isWord).value;
    forall i | 0 <= i < |tasks|
      ensures exists j :: (0 <= j < |files|
                && FromFileAt(Link(tasks[i].link, tasks[i].fileName, files[j].filename), files[j], clean)
                && tasks[i].folderName == RemoveJson(files[j].filename))
    {
      var j :| 0 <= j < |files| && FromFileAt(links[i], files[j], clean);
      assert links[i] == Link(tasks[i].link, tasks[i].fileName, files[j].filename);
    }
  }

  /**
   * A file that is not a `.json` file, or has no `docket_report`, adds no job
   * and cannot raise: leaving it out of the listing changes nothing.
   */
  lemma TasksSkipFile(before: seq<JsonFile>, file: JsonFile, after: seq<JsonFile>, outputPath: string, clientMatter: string, isWord: char -> bool)
    requires !IsJsonFilename(file.filename) || file.docketReport.None?
    ensures Tasks(before + [file] + after, outputPath, clientMatter, isWord) == Tasks(before + after, outputPath, clientMatter, isWord)
  {
    IgnoredFileChangesNothing(before, file, after, Cleaner(isWord));
  }
}
