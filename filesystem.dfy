/**
 * The part of std::filesystem and std::fstream the logger, the configuration
 * loader and the file helpers rely on, as a value: the regular files by path
 * with their contents, the paths on which opening a stream is refused, and the
 * paths a rename may neither take nor replace.
 * Paths use '/' as separator (the POSIX build).
 */
module FileSystem {
  import opened Wrappers

  datatype Fs = Fs(files: map<string, string>, denied: set<string>, locked: set<string>)

  /** The exception std::filesystem::rename or a failed stream open raises. */
  datatype FsError = NoSuchFile | AccessDenied

  /** std::filesystem::exists. */
  predicate Exists(fs: Fs, p: string) {
    p in fs.files
  }

  /** std::filesystem::rename(from, to): the contents move to `to`, replacing what was there. */
  function Rename(fs: Fs, from: string, to: string): (r: Result<Fs, FsError>)
    ensures r.Success? <==> from in fs.files && from !in fs.locked && to !in fs.locked
    ensures r.Success? ==>
      && to in r.value.files && r.value.files[to] == fs.files[from]
      && (from != to ==> from !in r.value.files)
      && (forall p :: p != from && p != to && p in fs.files ==> p in r.value.files && r.value.files[p] == fs.files[p])
      && (forall p :: p in r.value.files ==> p == to || p in fs.files)
      && r.value.denied == fs.denied && r.value.locked == fs.locked
  {
    if from !in fs.files then Failure(NoSuchFile)
    else if from in fs.locked || to in fs.locked then Failure(AccessDenied)
    else Success(fs.(files := (fs.files - {from})[to := fs.files[from]]))
  }

  /** std::ofstream::open with std::ios::app: refused on a denied path, otherwise creates the file if absent. */
  function OpenAppend(fs: Fs, p: string): (r: Result<Fs, FsError>)
    ensures r.Success? <==> p !in fs.denied
    ensures r.Success? ==>
      && r.value.files == (if p in fs.files then fs.files else fs.files[p := ""])
      && r.value.denied == fs.denied && r.value.locked == fs.locked
  {
    if p in fs.denied then Failure(AccessDenied)
    else if p in fs.files then Success(fs)
    else Success(fs.(files := fs.files[p := ""]))
  }

  /**
   * Text written through a handle opened on p. If the file has been removed
   * since the handle was opened, the text goes to the unlinked file and is
   * lost to every path.
   */
  function Append(fs: Fs, p: string, text: string): (r: Fs)
    ensures r.denied == fs.denied && r.locked == fs.locked && r.files.Keys == fs.files.Keys
    ensures p in fs.files ==> r.files == fs.files[p := fs.files[p] + text]
    ensures p !in fs.files ==> r == fs
  {
    if p in fs.files then fs.(files := fs.files[p := fs.files[p] + text]) else fs
  }

  /** The directory part of a path, through its last '/'. */
  function DirOf(p: string): (d: string)
    ensures |d| <= |p| && d == p[..|d|]
    ensures d == [] || d[|d| - 1] == '/'
    ensures forall i :: |d| <= i < |p| ==> p[i] != '/'
  {
    if p == [] then []
    else if p[|p| - 1] == '/' then p
    else DirOf(p[..|p| - 1])
  }

  /** std::filesystem::path::filename: what follows the last '/'. */
  function Filename(p: string): (f: string)
    ensures DirOf(p) + f == p
    ensures NoSlash(f)
  {
    p[|DirOf(p)|..]
  }

  predicate NoSlash(s: string) {
    forall i :: 0 <= i < |s| ==> s[i] != '/'
  }

  /** std::filesystem::path::replace_filename: same directory, new last component. */
  function ReplaceFilename(p: string, name: string): (r: string)
    ensures NoSlash(name) ==> DirOf(r) == DirOf(p) && Filename(r) == name
  {
    var r := DirOf(p) + name;
    if NoSlash(name) then
      DirOfAppend(DirOf(p), name);
      r
    else r
  }

  lemma {:induction false} DirOfAppend(d: string, name: string)
    requires d == [] || d[|d| - 1] == '/'
    requires NoSlash(name)
    ensures DirOf(d + name) == d
    decreases |name|
  {
    if name == [] {
      assert d + name == d;
      if d != [] {
        assert DirOf(d) == d;
      }
    } else {
      assert (d + name)[..|d + name| - 1] == d + name[..|name| - 1];
      DirOfAppend(d, name[..|name| - 1]);
    }
  }
}
