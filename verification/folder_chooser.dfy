/** The folder chooser: lists the sub-directories of the current folder and
    moves between folders by clicking an entry (down) and pressing back (up,
    until the root of external storage is reached).

    The file system is an abstract map from a directory path to its listing;
    a path with no listing is one for which `listFiles` gives null. */
module FolderChooser {
  import opened Wrappers
  import opened Paths

  /** One listed file: its name and the three attributes the filter reads. */
  datatype Entry = Entry(name: string, isDir: bool, canRead: bool, isHidden: bool)

  /** The listing of every directory that can be listed. */
  type Listings = map<string, seq<Entry>>

  /** The chooser: the root it was opened on, the current folder and the
      folder names on screen. */
  datatype Chooser = Chooser(root: string, current: string, shown: seq<string>)

  /** A null path handed to `new File`. */
  datatype Fault = NullPath

  /** What back does: leave the chooser (the default back action), or show
      the parent folder. */
  datatype Back = Left | Listed(chooser: Chooser)

  /** The filter's skip test, negated: a readable, visible directory. */
  predicate Kept(e: Entry)
  {
    e.isDir && e.canRead && !e.isHidden
  }

  /** The system folder names the code's comment means to single out. */
  predicate IsSystemName(name: string)
  {
    name == "sdcard" || name == "storage"
  }

  /** The names `getDirsNameFrom` collects from a listing, as written: the
      `else` belongs to the inner `if`, so with an absolute parent both
      branches add the name, and with a relative parent nothing is added. */
  function CollectAsWritten(entries: seq<Entry>, absolute: bool): seq<string>
  {
    if |entries| == 0 then []
    else
      var before := CollectAsWritten(entries[..|entries| - 1], absolute);
      var e := entries[|entries| - 1];
      if !Kept(e) then before
      else if absolute then
        if IsSystemName(e.name) then before + [e.name]
        else before + [e.name]
      else before
  }

  /** The names of the kept entries, in listing order. */
  function KeptNames(entries: seq<Entry>): (names: seq<string>)
    ensures |names| <= |entries|
  {
    if |entries| == 0 then []
    else KeptNames(entries[..|entries| - 1]) + (if Kept(entries[|entries| - 1]) then [entries[|entries| - 1].name] else [])
  }

  /** Every kept name comes from a kept entry, and every kept entry's name is
      there. */
  lemma {:induction false} KeptNamesAreKeptEntries(entries: seq<Entry>)
    ensures forall n :: n in KeptNames(entries) <==> exists e :: e in entries && Kept(e) && e.name == n
    decreases |entries|
  {
    if |entries| > 0 {
      var init := entries[..|entries| - 1];
      var last := entries[|entries| - 1];
      KeptNamesAreKeptEntries(init);
      assert entries == init + [last];
      forall n | n in KeptNames(entries)
        ensures exists e :: e in entries && Kept(e) && e.name == n
      {
        if n in KeptNames(init) {
          var e :| e in init && Kept(e) && e.name == n;
          assert e in entries;
        } else {
          assert last in entries;
        }
      }
      forall n | exists e :: e in entries && Kept(e) && e.name == n
        ensures n in KeptNames(entries)
      {
        var e :| e in entries && Kept(e) && e.name == n;
        if e != last {
          assert e in init;
        }
      }
    }
  }

  /** The dangling `else`: an absolute parent yields every kept name in
      listing order, a relative parent yields nothing. */
  lemma {:induction false} CollectAsWrittenIsKeptNames(entries: seq<Entry>, absolute: bool)
    ensures CollectAsWritten(entries, absolute) == if absolute then KeptNames(entries) else []
    decreases |entries|
  {
    if |entries| > 0 {
      CollectAsWrittenIsKeptNames(entries[..|entries| - 1], absolute);
    }
  }

  /** The listing `listFiles` gives for a path: null when there is none. */
  function ListFiles(fs: Listings, path: string): Option<seq<Entry>>
  {
    if path in fs then Some(fs[path]) else None
  }

  /** The loop of `getDirsNameFrom` over a non-null listing. */
  method CollectDirs(files: seq<Entry>, absolute: bool) returns (names: seq<string>)
    ensures names == CollectAsWritten(files, absolute)
  {
    names := [];
    var i := 0;
    while i < |files|
      invariant 0 <= i <= |files|
      invariant names == CollectAsWritten(files[..i], absolute)
    {
      var ff := files[i];
      assert files[..i + 1][..i] == files[..i];
      if !ff.isDir || !ff.canRead || ff.isHidden {
        i := i + 1;
        continue;
      }
      if absolute {
        if ff.name == "sdcard" || ff.name == "storage" {
          names := names + [ff.name];
        } else {
          names := names + [ff.name];
        }
      }
      i := i + 1;
    }
    assert files[..i] == files;
  }

  /** `getDirsNameFrom`: the names of the readable, visible sub-directories
      of `path` when it is absolute, none when it is relative or cannot be
      listed. */
  function DirsNameFrom(fs: Listings, path: string): (names: seq<string>)
    ensures ListFiles(fs, path).None? ==> names == []
    ensures !IsAbsolute(path) ==> names == []
    ensures IsAbsolute(path) && path in fs ==> names == KeptNames(fs[path])
    ensures forall n :: n in names ==>
      path in fs && exists e :: e in fs[path] && Kept(e) && e.name == n
  {
    match ListFiles(fs, path)
    case None => []
    case Some(files) =>
      CollectAsWrittenIsKeptNames(files, IsAbsolute(path));
      KeptNamesAreKeptEntries(files);
      CollectAsWritten(files, IsAbsolute(path))
  }

  /** `getDirsNameFrom` together with its update of the current folder. */
  function Show(c: Chooser, fs: Listings, path: string): (r: Chooser)
    ensures r.root == c.root && r.current == path && r.shown == DirsNameFrom(fs, path)
  {
    Chooser(c.root, path, DirsNameFrom(fs, path))
  }

  /** Both the root and the current folder are absolute paths. */
  predicate Valid(c: Chooser)
  {
    IsAbsolute(c.root) && IsAbsolute(c.current)
  }

  /** `onCreate`: lists the root of external storage, an absolute path. */
  function OnCreate(fs: Listings, root: string): (c: Chooser)
    requires IsAbsolute(root)
    ensures Valid(c)
    ensures c.root == root && c.current == root && c.shown == KeptNamesOrNone(fs, root)
  {
    Show(Chooser(root, root, []), fs, root)
  }

  /** The kept names of an absolute path's listing, or none without one. */
  function KeptNamesOrNone(fs: Listings, path: string): seq<string>
  {
    if path in fs then KeptNames(fs[path]) else []
  }

  /** `onBackPressed`: at the root, the default back action leaves the
      chooser; elsewhere the parent folder is shown. A parent that is null
      (only for the path "/") is passed to `new File` and throws. */
  function OnBackPressed(c: Chooser, fs: Listings): (r: Result<Back, Fault>)
    requires Valid(c)
    ensures c.current == c.root ==> r == Success(Left)
    ensures c.current != c.root && c.current == [Separator] ==> r == Failure(NullPath)
    ensures c.current != c.root && c.current != [Separator] ==>
      && r.Success? && r.value.Listed?
      && Valid(r.value.chooser)
      && Parent(c.current) == Some(r.value.chooser.current)
      && r.value.chooser.shown == KeptNamesOrNone(fs, r.value.chooser.current)
  {
    if c.current == c.root then Success(Left)
    else
      match Parent(c.current)
      case None => Failure(NullPath)
      case Some(parent) => Success(Listed(Show(c, fs, parent)))
  }

  /** `onClick` on a folder row: shows the folder named by the row's tag. */
  function OnClick(c: Chooser, fs: Listings, tag: string): (r: Chooser)
    requires Valid(c)
    ensures Valid(r)
    ensures r.current == Join(c.current, tag)
    ensures r.shown == KeptNamesOrNone(fs, r.current)
  {
    Show(c, fs, Join(c.current, tag))
  }

  /** `onCreateDirectoryRequest`: lists the current folder again. */
  function OnCreateDirectoryRequest(c: Chooser, fs: Listings): (r: Chooser)
    requires Valid(c)
    ensures Valid(r)
    ensures r.current == c.current && r.shown == KeptNamesOrNone(fs, c.current)
  {
    Show(c, fs, c.current)
  }

  /** Back undoes a click: after opening a folder by name, back shows the
      folder it was opened from again. */
  lemma BackUndoesClick(c: Chooser, fs: Listings, tag: string)
    requires Valid(c)
    requires Separator !in tag
    requires Join(c.current, tag) != c.root
    ensures OnBackPressed(OnClick(c, fs, tag), fs) ==
            Success(Listed(Chooser(c.root, c.current, KeptNamesOrNone(fs, c.current))))
  {
    ParentOfJoin(c.current, tag);
  }
}
