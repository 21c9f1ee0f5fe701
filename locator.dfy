/** Locating a build on the nightly server (index.js:234-289): the nightly
    directory is listed, the first entry the build-directory pattern
    accepts is taken, that directory is listed in turn, and the first file
    named like a b2g package is taken; `gaia.zip` sits beside it. */
module Locator {
  import opened Wrappers
  import opened Strings
  import opened Regex
  import opened Selector
  import opened Resolver

  const FTP_HOST: string := "ftp.mozilla.org"
  const FTP_URL: string := "http://" + FTP_HOST
  const FTP_PATH: string := "/pub/mozilla.org/b2g/nightly/"

  /** `/android-arm\.tar\.gz$/`: the name ends with the package suffix (the
      test has no `i` flag, so case matters). */
  predicate IsB2gPackage(name: string)
  {
    EndsWith(name, "android-arm.tar.gz")
  }

  /** `names.filter(p)`: the entries `p` accepts, in listing order. */
  function Filter(names: seq<string>, p: string -> bool): (r: seq<string>)
    ensures |r| <= |names|
    ensures forall i | 0 <= i < |r| :: p(r[i])
    ensures forall x :: x in r <==> x in names && p(x)
  {
    if names == [] then []
    else (if p(names[0]) then [names[0]] else []) + Filter(names[1..], p)
  }

  /** `filter` keeps every accepted entry as often as it is listed, and
      no refused one. */
  lemma {:induction false} FilterCount(names: seq<string>, p: string -> bool, x: string)
    ensures multiset(Filter(names, p))[x] == if p(x) then multiset(names)[x] else 0
  {
    if names != [] {
      assert names == [names[0]] + names[1..];
      FilterCount(names[1..], p, x);
    }
  }

  /** Filtering keeps listing order: the filter of a listing split in two
      is the filter of the front followed by the filter of the back. */
  lemma {:induction false} FilterConcat(a: seq<string>, b: seq<string>, p: string -> bool)
    ensures Filter(a + b, p) == Filter(a, p) + Filter(b, p)
  {
    if a == [] {
      assert a + b == b;
    } else {
      var head: seq<string> := if p(a[0]) then [a[0]] else [];
      assert Filter(a + b, p) == head + Filter(a[1..] + b, p) by {
        assert (a + b)[0] == a[0];
        assert (a + b)[1..] == a[1..] + b;
      }
      FilterConcat(a[1..], b, p);
      ListAssoc(head, Filter(a[1..], p), Filter(b, p));
    }
  }

  /** `x` is the earliest entry of `names` that `p` accepts. */
  predicate IsFirst(names: seq<string>, p: string -> bool, x: string)
  {
    exists i | 0 <= i < |names| :: names[i] == x && p(x) && forall j | 0 <= j < i :: !p(names[j])
  }

  /** The head of a filtered listing is the earliest entry the filter
      accepts. */
  lemma {:induction false} FilterHead(names: seq<string>, p: string -> bool)
    requires Filter(names, p) != []
    ensures IsFirst(names, p, Filter(names, p)[0])
  {
    var tail := names[1..];
    if !p(names[0]) {
      assert Filter(names, p) == Filter(tail, p);
      FilterHead(tail, p);
      var x := Filter(tail, p)[0];
      var i :| 0 <= i < |tail| && tail[i] == x && p(x) && forall j | 0 <= j < i :: !p(tail[j]);
      assert names[i + 1] == x;
      forall j | 0 <= j < i + 1
        ensures !p(names[j])
      {
        if j > 0 {
          assert names[j] == tail[j - 1];
        }
      }
    } else {
      assert Filter(names, p) == [names[0]] + Filter(tail, p);
    }
  }

  /** `files.filter(p)` followed by `files[0].name`, with the empty filter
      result as `None`: the earliest accepted entry, and `None` exactly
      when no entry is accepted. */
  function SelectFirst(names: seq<string>, p: string -> bool): (r: Option<string>)
    ensures r.None? <==> forall i | 0 <= i < |names| :: !p(names[i])
    ensures r.Some? ==> IsFirst(names, p, r.value)
  {
    var f := Filter(names, p);
    if f == [] then
      assert forall i | 0 <= i < |names| :: !p(names[i]) by {
        forall i | 0 <= i < |names| ensures !p(names[i]) {
          assert names[i] in names;
        }
      }
      None
    else
      FilterHead(names, p);
      Some(f[0])
  }

  /** `findTargetFolder` (index.js:250-258): the first listed directory the
      compiled build pattern accepts. */
  function FindTargetFolder(files: seq<string>, pathMatch: seq<Piece>): (r: Option<string>)
    ensures r.None? <==> forall i | 0 <= i < |files| :: !Matches(pathMatch, files[i])
    ensures r.Some? ==> exists i | 0 <= i < |files| ::
      files[i] == r.value && Matches(pathMatch, files[i]) &&
      forall j | 0 <= j < i :: !Matches(pathMatch, files[j])
  {
    SelectFirst(files, name => Matches(pathMatch, name))
  }

  /** `findB2gFile` (index.js:268-276): the first listed file that is a b2g
      package. */
  function FindB2gFile(files: seq<string>): (r: Option<string>)
    ensures r.None? <==> forall i | 0 <= i < |files| :: !IsB2gPackage(files[i])
    ensures r.Some? ==> exists i | 0 <= i < |files| ::
      files[i] == r.value && IsB2gPackage(files[i]) &&
      forall j | 0 <= j < i :: !IsB2gPackage(files[j])
  {
    SelectFirst(files, IsB2gPackage)
  }

  /** For a selector whose strings read literally, the folder picked out
      of a listing by the compiled pattern is the first listed name that
      `Fits` the selector, and there is none exactly when no name fits. */
  lemma TargetFolderFits(sel: Selector, files: seq<string>)
    requires PlainSelector(sel)
    ensures Compile(PatternOf(sel)).Some?
    ensures var r := FindTargetFolder(files, Compile(PatternOf(sel)).value);
      && (r.None? <==> forall i | 0 <= i < |files| :: !Fits(sel, files[i]))
      && (r.Some? ==> exists i | 0 <= i < |files| ::
            files[i] == r.value && Fits(sel, files[i]) &&
            forall j | 0 <= j < i :: !Fits(sel, files[j]))
  {
    CompilePattern(sel);
    forall name | true
      ensures Matches(Pieces(sel), name) <==> Fits(sel, name)
    {
      PatternMeaning(sel, name);
    }
  }

  datatype LocateError =
    | ListingFailed(path: string)      // the listing request failed
    | NoMatchingDirectory(url: string) // `Could not find a directory matching …`, naming the listed URL
    | NoB2gPackage                     // `Could not find b2g package!`

  /** What the downloads are fetched from. */
  datatype Sources = Sources(folder: string, gaiaUrl: string, b2gUrl: string)

  /** The server path of a build directory's listing. */
  function FolderPath(folder: string): string
  {
    FTP_PATH + folder + "/"
  }

  /** The folder `findTargetFolder` picks out of the nightly listing;
      `None` when the listing fails or no entry matches. */
  function ChosenFolder(ls: string -> Option<seq<string>>, pathMatch: seq<Piece>): Option<string>
  {
    match ls(FTP_PATH)
    case None => None
    case Some(files) => FindTargetFolder(files, pathMatch)
  }

  /** The listing of the chosen folder; `None` when there is no chosen
      folder or its listing fails. */
  function FolderListing(ls: string -> Option<seq<string>>, pathMatch: seq<Piece>): Option<seq<string>>
  {
    match ChosenFolder(ls, pathMatch)
    case None => None
    case Some(folder) => ls(FolderPath(folder))
  }

  /** `download` up to the opening of the two streams (index.js:234-289).
      `ls` stands for the server listing: the entry names under a path, or
      `None` when the listing fails. The path cursor `ftpPath` starts at the
      nightly directory and is extended by the chosen folder. Each of the
      four outcomes is reported exactly when it occurs. */
  method Locate(ls: string -> Option<seq<string>>, pathMatch: seq<Piece>) returns (r: Result<Sources, LocateError>)
    ensures r == Err(ListingFailed(FTP_PATH)) <==> ls(FTP_PATH).None?
    ensures r == Err(NoMatchingDirectory(FTP_URL + FTP_PATH)) <==>
      ls(FTP_PATH).Some? && ChosenFolder(ls, pathMatch).None?
    ensures r.Err? && r.error.ListingFailed? && r.error.path != FTP_PATH <==>
      ChosenFolder(ls, pathMatch).Some? && FolderListing(ls, pathMatch).None?
    ensures ChosenFolder(ls, pathMatch).Some? && FolderListing(ls, pathMatch).None? ==>
      r == Err(ListingFailed(FolderPath(ChosenFolder(ls, pathMatch).value)))
    ensures r == Err(NoB2gPackage) <==>
      FolderListing(ls, pathMatch).Some? && FindB2gFile(FolderListing(ls, pathMatch).value).None?
    ensures r.Ok? <==>
      FolderListing(ls, pathMatch).Some? && FindB2gFile(FolderListing(ls, pathMatch).value).Some?
    ensures r.Ok? ==>
      var folder := ChosenFolder(ls, pathMatch).value;
      var file := FindB2gFile(FolderListing(ls, pathMatch).value).value;
      r.value == Sources(folder, FTP_URL + FolderPath(folder) + "gaia.zip", FTP_URL + FolderPath(folder) + file)
    ensures r.Ok? ==> Matches(pathMatch, r.value.folder)
  {
    var ftpPath := FTP_PATH;
    var files := ls(ftpPath);
    if files.None? {
      return Err(ListingFailed(ftpPath));
    }
    var folder := FindTargetFolder(files.value, pathMatch);
    if folder.None? {
      return Err(NoMatchingDirectory(FTP_URL + ftpPath));
    }
    ftpPath := ftpPath + folder.value + "/";
    assert |ftpPath| > |FTP_PATH|;
    var targetFiles := ls(ftpPath);
    if targetFiles.None? {
      return Err(ListingFailed(ftpPath));
    }
    var file := FindB2gFile(targetFiles.value);
    if file.None? {
      return Err(NoB2gPackage);
    }
    r := Ok(Sources(folder.value, FTP_URL + ftpPath + "gaia.zip", FTP_URL + ftpPath + file.value));
  }

  // ---- Proof helpers ----
  // The lemma below states nothing about the script: it regroups a
  // concatenation, a rewriting the solver does not find unaided.

  lemma ListAssoc(a: seq<string>, b: seq<string>, c: seq<string>)
    ensures a + (b + c) == (a + b) + c
  {
  }
}
