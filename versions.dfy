/**
 * The two copies of `get_urls` side by side: they find the same links under
 * the same names, in the same order, and raise the same errors; only the
 * folder each job is filed under is derived differently from the JSON file's
 * name.
 */
module Versions {
  import opened Wrappers
  import opened Extraction
  import BulkGetPdfs
  import LegacyGetPdfs

  /**
   * Both versions raise the same `KeyError` on the same input, or both return
   * as many jobs, with the same link and name at each position and folders
   * derived from the same JSON file's name.
   */
  lemma SameLinksAndNames(files: seq<JsonFile>, outputPath: string, clientMatter: string, isWord: char -> bool)
    ensures var bulk := BulkGetPdfs.Tasks(files, outputPath, clientMatter, isWord);
      var legacy := LegacyGetPdfs.Tasks(files, isWord);
      && (bulk.Failure? <==> legacy.Failure?)
      && (bulk.Failure? ==> bulk.error == legacy.error)
      && (bulk.Ok? ==>
            && |bulk.value| == |legacy.value|
            && forall i :: 0 <= i < |bulk.value| ==>
                 && bulk.value[i].link == legacy.value[i].link
                 && bulk.value[i].fileName == legacy.value[i].fileName
                 && exists j :: (0 <= j < |files| && Contributes(files[j])
                      && bulk.value[i].folderName == BulkGetPdfs.RemoveJson(files[j].filename)
                      && legacy.value[i].folderName == LegacyGetPdfs.BeforeFirstDot(files[j].filename)))
  {
    var clean := Cleaner(isWord);
    if Links(files, clean).Ok? {
      LinksFrom(files, clean);
      var links := Links(files, clean).value;
      var bulk := BulkGetPdfs.Tasks(files, outputPath, clientMatter, isWord).value;
      var legacy := LegacyGetPdfs.Tasks(files, isWord).value;
      forall i | 0 <= i < |bulk|
        ensures exists j :: (0 <= j < |files| && Contributes(files[j])
          && bulk[i].folderName == BulkGetPdfs.RemoveJson(files[j].filename)
          && legacy[i].folderName == LegacyGetPdfs.BeforeFirstDot(files[j].filename))
      {
        var j :| 0 <= j < |files| && FromFileAt(links[i], files[j], clean);
        assert links[i].filename == files[j].filename;
      }
    }
  }

  /** For `stem.json` (in any case) with no dot in the stem, both versions file the jobs under `stem`. */
  lemma FoldersAgree(stem: string, ext: string)
    requires |ext| == 5 && BulkGetPdfs.JsonAt(ext, 0)
    requires '.' !in stem
    ensures BulkGetPdfs.RemoveJson(stem + ext) == stem
    ensures LegacyGetPdfs.BeforeFirstDot(stem + ext) == stem
  {
    forall i: nat
      ensures !BulkGetPdfs.JsonAt(stem, i)
    {
      if i < |stem| {
        assert stem[i] in stem;
      }
    }
    BulkGetPdfs.RemoveJsonStem(stem, ext);
    var r := LegacyGetPdfs.BeforeFirstDot(stem + ext);
    assert (stem + ext)[|stem|] == '.';
    assert r == stem;
  }

  /** With a dot in the stem they differ: `a.b.json` goes to `a.b` in one version and to `a` in the other. */
  lemma FoldersDiffer()
    ensures BulkGetPdfs.RemoveJson("a.b.json") == "a.b"
    ensures LegacyGetPdfs.BeforeFirstDot("a.b.json") == "a"
  {
    var stem, ext := "a.b", ".json";
    assert stem + ext == "a.b.json";
    forall i: nat
      ensures !BulkGetPdfs.JsonAt(stem, i)
    {
    }
    BulkGetPdfs.RemoveJsonStem(stem, ext);
    assert |LegacyGetPdfs.BeforeFirstDot("a.b.json")| == 1;
  }
}
