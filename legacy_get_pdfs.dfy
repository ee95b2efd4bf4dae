/**
 * `get_urls` of the earlier command-line tool: the same walk as the bulk
 * tool's, but each link is packed only with its name and a folder named after
 * the text of its JSON file's name before the first dot.
 */
module LegacyGetPdfs {
  import opened Wrappers
  import opened Extraction

  /** `(link, link_filename, base_filename)`. */
  datatype Task = Task(link: string, fileName: string, folderName: string)

  /** `filename.split(".")[0]`: the longest prefix without a dot. */
  function BeforeFirstDot(s: string): (r: string)
    ensures |r| <= |s| && r == s[..|r|]
    ensures '.' !in r
    ensures |r| < |s| ==> s[|r|] == '.'
  {
    if s == [] || s[0] == '.' then [] else [s[0]] + BeforeFirstDot(s[1..])
  }

  /** The job for one link of the walk. */
  function TaskOf(l: Link): Task {
    Task(l.url, l.name, BeforeFirstDot(l.filename))
  }

  /** One job per link, in the links' order. */
  function ToTasks(links: seq<Link>): (r: seq<Task>)
    ensures |r| == |links|
    ensures forall i :: 0 <= i < |links| ==> r[i] == TaskOf(links[i])
  {
    if links == [] then [] else [TaskOf(links[0])] + ToTasks(links[1..])
  }

  /** A walk outcome with each link packed as a job. */
  function MapTasks(r: Result<seq<Link>, KeyError>): Result<seq<Task>, KeyError> {
    match r
    case Failure(e) => Failure(e)
    case Ok(links) => Ok(ToTasks(links))
  }

  /** What `get_urls` returns, or the `KeyError` it raises. */
  function Tasks(files: seq<JsonFile>, isWord: char -> bool): Result<seq<Task>, KeyError> {
    MapTasks(Links(files, Cleaner(isWord)))
  }

  /** Packing one more link appends its job. */
  lemma ToTasksSnoc(links: seq<Link>, l: Link)
    ensures ToTasks(links + [l]) == ToTasks(links) + [TaskOf(l)]
  {
    ToTasksAppend(links, [l]);
  }

  /** Packing distributes over appending link lists. */
  lemma {:induction false} ToTasksAppend(a: seq<Link>, b: seq<Link>)
    ensures ToTasks(a + b) == ToTasks(a) + ToTasks(b)
    decreases |a|
  {
    if a == [] {
      assert a + b == b;
    } else {
      assert (a + b)[0] == a[0];
      assert (a + b)[1..] == a[1..] + b;
      ToTasksAppend(a[1..], b);
    }
  }

  /** The loop over one item's `exhibits`, packing each exhibit link with the file's folder. */
  method ExhibitsTasks(filename: string, baseFilename: string, exhibits: seq<Exhibit>, docNum: string, docName: string)
    returns (r: Result<seq<Task>, KeyError>)
    requires baseFilename == BeforeFirstDot(filename)
    ensures r == MapTasks(ExhibitsLinks(filename, exhibits, docNum, docName))
  {
    var pdfList: seq<Task> := [];
    ghost var acc: seq<Link> := [];
    var k := 0;
    while k < |exhibits|
      invariant k <= |exhibits|
      invariant ExhibitsLinks(filename, exhibits[..k], docNum, docName) == Ok(acc)
      invariant pdfList == ToTasks(acc)
    {
      var exhibit := exhibits[k];
      if exhibit.link.Some? {
        if exhibit.exhibit.None? {
          ExhibitErrorEndsExhibits(filename, exhibits, k, docNum, docName);
          return Failure(KeyError("exhibit"));
        }
        var exhibitNumber := exhibit.exhibit.value;
        var exhibitLink := exhibit.link.value;
        var exhibitName := ExhibitName(exhibitNumber, docNum, docName);
        ToTasksSnoc(acc, Link(exhibitLink, exhibitName, filename));
        pdfList := pdfList + [Task(exhibitLink, exhibitName, baseFilename)];
      }
      ExhibitsLinksStep(filename, exhibits, k, docNum, docName);
      acc := acc + ExhibitLink(filename, exhibit, docNum, docName).value;
      k := k + 1;
    }
    assert exhibits[..k] == exhibits;
    return Ok(pdfList);
  }

  /**
   * The body of the loop over a `docket_report`, for one item: read
   * `contents` (cleaned by `clean`, `cleanhtml` when called from `GetUrls`)
   * and `number`, then pack the item's own link and its exhibits'.
   */
  method ItemTasks(filename: string, baseFilename: string, item: Item, clean: string -> string)
    returns (r: Result<seq<Task>, KeyError>)
    requires baseFilename == BeforeFirstDot(filename)
    ensures r == MapTasks(ItemLinks(filename, item, clean))
  {
    if item.contents.None? {
      return Failure(KeyError("contents"));
    }
    var docName := clean(item.contents.value);
    if item.number.None? {
      return Failure(KeyError("number"));
    }
    var docNum := item.number.value;
    var pdfList: seq<Task> := [];
    ghost var itemLinks: seq<Link> := [];
    if item.link.Some? {
      var link := item.link.value;
      var linkFilename := DirectName(docNum, docName);
      itemLinks := [Link(link, linkFilename, filename)];
      pdfList := [Task(link, linkFilename, baseFilename)];
    }
    assert pdfList == ToTasks(itemLinks);
    if item.exhibits.Some? {
      var exhibitTasks := ExhibitsTasks(filename, baseFilename, item.exhibits.value, docNum, docName);
      if exhibitTasks.Failure? {
        return Failure(exhibitTasks.error);
      }
      ghost var exhibitLinks := ExhibitsLinks(filename, item.exhibits.value, docNum, docName).value;
      ToTasksAppend(itemLinks, exhibitLinks);
      pdfList := pdfList + exhibitTasks.value;
      itemLinks := itemLinks + exhibitLinks;
    }
    assert ItemLinks(filename, item, clean) == Ok(itemLinks);
    return Ok(pdfList);
  }

  /** The loop over one `docket_report`, item by item, in list order. */
  method ItemsTasks(filename: string, baseFilename: string, docketReport: seq<Item>, clean: string -> string)
    returns (r: Result<seq<Task>, KeyError>)
    requires baseFilename == BeforeFirstDot(filename)
    ensures r == MapTasks(ItemsLinks(filename, docketReport, clean))
  {
    var pdfList: seq<Task> := [];
    ghost var acc: seq<Link> := [];
    var j := 0;
    while j < |docketReport|
      invariant j <= |docketReport|
      invariant ItemsLinks(filename, docketReport[..j], clean) == Ok(acc)
      invariant pdfList == ToTasks(acc)
    {
      var itemTasks := ItemTasks(filename, baseFilename, docketReport[j], clean);
      if itemTasks.Failure? {
        ItemErrorEndsItems(filename, docketReport, j, clean);
        return Failure(itemTasks.error);
      }
      ghost var itemLinks := ItemLinks(filename, docketReport[j], clean).value;
      ToTasksAppend(acc, itemLinks);
      ItemsLinksStep(filename, docketReport, j, clean);
      pdfList := pdfList + itemTasks.value;
      acc := acc + itemLinks;
      j := j + 1;
    }
    assert docketReport[..j] == docketReport;
    return Ok(pdfList);
  }

  /**
   * `get_urls`, with the directory listing given as the parsed files in
   * listing order.
   */
  method GetUrls(files: seq<JsonFile>, isWord: char -> bool)
    returns (r: Result<seq<Task>, KeyError>)
    ensures r == Tasks(files, isWord)
  {
    var clean := Cleaner(isWord);
    var pdfList: seq<Task> := [];
    ghost var acc: seq<Link> := [];
    var i := 0;
    while i < |files|
      invariant i <= |files|
      invariant Links(files[..i], clean) == Ok(acc)
      invariant pdfList == ToTasks(acc)
    {
      var filename := files[i].filename;
      ghost var fileLinks: seq<Link> := [];
      if IsJsonFilename(filename) {
        var baseFilename := BeforeFirstDot(filename);
        if files[i].docketReport.Some? {
          var itemTasks := ItemsTasks(filename, baseFilename, files[i].docketReport.value, clean);
          if itemTasks.Failure? {
            FileErrorEndsWalk(files, i, clean);
            return Failure(itemTasks.error);
          }
          fileLinks := ItemsLinks(filename, files[i].docketReport.value, clean).value;
          ToTasksAppend(acc, fileLinks);
          pdfList := pdfList + itemTasks.value;
        }
      }
      LinksStep(files, i, clean);
      acc := acc + fileLinks;
      i := i + 1;
    }
    assert files[..i] == files;
    return Ok(pdfList);
  }

  // ---------------------------------------------------------------------------
  // What `get_urls` promises.

  /**
   * `get_urls` raises `KeyError` exactly when some `.json` file with a
   * `docket_report` has an item without `contents` or `number` (read before
   * its link is looked at), or an exhibit with a `link` but no `exhibit` key.
   */
  lemma TasksFailure(files: seq<JsonFile>, isWord: char -> bool)
    ensures Tasks(files, isWord).Failure? <==> exists file :: file in files && !FileReadable(file)
  {
    LinksSucceed(files, Cleaner(isWord));
  }

  /**
   * The jobs come in reading order (file, then item, then the item's own link
   * before its exhibits' in list order), one per item with a `link` and one
   * per exhibit with a `link`, each with its own name and folder.
   */
  lemma TasksOrder(files: seq<JsonFile>, isWord: char -> bool)
    requires Tasks(files, isWord).Ok?
    ensures Tasks(files, isWord).value == ToTasks(FilesRef(files, Cleaner(isWord)))
  {
    LinksOrder(files, Cleaner(isWord));
  }

  /**
   * A file that is not a `.json` file, or has no `docket_report`, adds no job
   * and cannot raise: leaving it out of the listing changes nothing.
   */
  lemma TasksSkipFile(before: seq<JsonFile>, file: JsonFile, after: seq<JsonFile>, isWord: char -> bool)
    requires !IsJsonFilename(file.filename) || file.docketReport.None?
    ensures Tasks(before + [file] + after, isWord) == Tasks(before + after, isWord)
  {
    IgnoredFileChangesNothing(before, file, after, Cleaner(isWord));
  }
}
