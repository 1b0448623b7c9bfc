/**
 * The self-contained logic of tools/sourcekits.py: the wrapping folder name an
 * extractor falls back to, the `filename=` parameter of a `Content-Disposition`
 * header, the `url;path` record a source kit keeps per download, and the test an
 * extractor applies to an archive's member list to find a single root folder.
 */
module SourceKits {
  import opened Wrappers
  import opened Strings
  import opened Variables

  /** `os.path.basename` on a POSIX path: everything after the last `/`. */
  function Basename(p: string): (r: string)
    ensures '/' !in r && EndsWith(p, r)
  {
    var i := LastIndexOf(p, '/');
    if i < 0 then
      assert p[0..] == p;
      p
    else
      p[i + 1..]
  }

  /** `name[:-len(ext)]`. Python's `[:-0]` is empty, so an empty suffix yields `""`. */
  function DropSuffix(name: string, ext: string): string
    requires EndsWith(name, ext)
  {
    if |ext| == 0 then "" else name[..|name| - |ext|]
  }

  /** The first position at or after `i` whose suffix `name` ends with, or `|exts|`. */
  function FirstSuffix(name: string, exts: seq<string>, i: nat): (r: nat)
    requires i <= |exts|
    ensures i <= r <= |exts|
    ensures r < |exts| ==> EndsWith(name, exts[r])
    ensures forall j :: i <= j < r ==> !EndsWith(name, exts[j])
    decreases |exts| - i
  {
    if i == |exts| then |exts|
    else if EndsWith(name, exts[i]) then i
    else FirstSuffix(name, exts, i + 1)
  }

  /** What `folder_name(target, *exts)` returns. */
  function FolderNameOf(target: string, exts: seq<string>): string {
    var name := Basename(target);
    var k := FirstSuffix(name, exts, 0);
    if k < |exts| then DropSuffix(name, exts[k]) else name + ".extracted"
  }

  /** `Extractor.folder_name`: the base name without the first suffix (in argument
      order) that it ends with, or the base name with `.extracted` appended. */
  method FolderName(target: string, exts: seq<string>) returns (r: string)
    ensures r == FolderNameOf(target, exts)
  {
    var name := Basename(target);
    var i := 0;
    while i < |exts|
      invariant i <= |exts|
      invariant FirstSuffix(name, exts, i) == FirstSuffix(name, exts, 0)
    {
      if EndsWith(name, exts[i]) {
        return DropSuffix(name, exts[i]);
      }
      i := i + 1;
    }
    r := name + ".extracted";
  }

  /** A stripped suffix comes back by appending it: the folder name is the base name
      with the first matching (non-empty) suffix removed. */
  lemma FolderNameStrips(target: string, exts: seq<string>, k: nat)
    requires k < |exts| && EndsWith(Basename(target), exts[k]) && exts[k] != ""
    requires forall j :: 0 <= j < k ==> !EndsWith(Basename(target), exts[j])
    ensures FolderNameOf(target, exts) + exts[k] == Basename(target)
  {
    var name := Basename(target);
    FirstSuffixIs(name, exts, 0, k);
    assert FolderNameOf(target, exts) == DropSuffix(name, exts[k]);
    DropThenAppend(name, exts[k]);
  }

  lemma DropThenAppend(name: string, ext: string)
    requires EndsWith(name, ext) && ext != ""
    ensures DropSuffix(name, ext) + ext == name
  {
    var m := |name| - |ext|;
    assert name[..m] + name[m..] == name;
  }

  lemma {:induction false} FirstSuffixIs(name: string, exts: seq<string>, i: nat, k: nat)
    requires i <= k < |exts| && EndsWith(name, exts[k])
    requires forall j :: i <= j < k ==> !EndsWith(name, exts[j])
    ensures FirstSuffix(name, exts, i) == k
    decreases k - i
  {
    if i < k {
      FirstSuffixIs(name, exts, i + 1, k);
    }
  }

  /** With no suffix matching, the base name is wrapped in a new `.extracted` folder. */
  lemma {:induction false} FolderNameUnmatched(target: string, exts: seq<string>)
    requires forall j :: 0 <= j < |exts| ==> !EndsWith(Basename(target), exts[j])
    ensures FolderNameOf(target, exts) == Basename(target) + ".extracted"
  {
    FirstSuffixNone(Basename(target), exts, 0);
  }

  lemma {:induction false} FirstSuffixNone(name: string, exts: seq<string>, i: nat)
    requires i <= |exts|
    requires forall j :: i <= j < |exts| ==> !EndsWith(name, exts[j])
    ensures FirstSuffix(name, exts, i) == |exts|
    decreases |exts| - i
  {
    if i < |exts| {
      FirstSuffixNone(name, exts, i + 1);
    }
  }

  /** `key, value = part.strip().split('=')`: exactly two pieces, else `ValueError`. */
  function Param(part: string): Result<(string, string)> {
    var kv := Split(Strip(part), '=');
    if |kv| == 2 then Ok((kv[0], kv[1])) else Err("ValueError")
  }

  predicate Quoted(value: string) {
    StartsWith(value, "\"") && EndsWith(value, "\"")
  }

  /** The value of the `filename` parameter: a quoted value goes through `json.loads`
      (`jsonString`, `None` where it raises), any other is taken as it is. */
  function FilenameValue(value: string, jsonString: string -> Option<string>): Result<Option<string>> {
    if Quoted(value) then
      match jsonString(value)
      case None => Err("JSONDecodeError")
      case Some(v) => Ok(Some(v))
    else Ok(Some(value))
  }

  /** The loop of `parse_filename` from parameter `i` on. */
  function FilenameFrom(params: seq<string>, i: nat, jsonString: string -> Option<string>): Result<Option<string>>
    requires i <= |params|
    decreases |params| - i
  {
    if i == |params| then Ok(None)
    else
      match Param(params[i])
      case Err(e) => Err(e)
      case Ok(kv) => if kv.0 == "filename" then FilenameValue(kv.1, jsonString) else FilenameFrom(params, i + 1, jsonString)
  }

  /** Whether a header value is an `attachment` disposition with parameters. */
  predicate Attachment(parts: seq<string>) {
    |parts| > 1 && Lower(Strip(parts[0])) == "attachment"
  }

  /** What `parse_filename` returns, `Err` where it raises. */
  function FilenameOf(header: Option<string>, jsonString: string -> Option<string>): Result<Option<string>> {
    if header.None? || header.value == "" then Ok(None)
    else
      var parts := Split(header.value, ';');
      if Attachment(parts) then FilenameFrom(parts, 1, jsonString) else Ok(None)
  }

  /** `Downloader.parse_filename`: `header` is the `Content-Disposition` header, if any. */
  method ParseFilename(header: Option<string>, jsonString: string -> Option<string>) returns (r: Result<Option<string>>)
    ensures r == FilenameOf(header, jsonString)
  {
    if header.None? || header.value == "" {
      return Ok(None);
    }
    var parts := Split(header.value, ';');
    if !Attachment(parts) {
      return Ok(None);
    }
    var i := 1;
    while i < |parts|
      invariant 1 <= i <= |parts|
      invariant FilenameFrom(parts, i, jsonString) == FilenameFrom(parts, 1, jsonString)
    {
      var kv := Param(parts[i]);
      if kv.Err? {
        return Err(kv.error);
      }
      if kv.value.0 == "filename" {
        return FilenameValue(kv.value.1, jsonString);
      }
      i := i + 1;
    }
    r := Ok(None);
  }

  /** A file name comes only from an `attachment` header with parameters. */
  lemma FilenameNeedsAttachment(header: Option<string>, jsonString: string -> Option<string>)
    requires FilenameOf(header, jsonString) != Ok(None)
    ensures header.Some? && Attachment(Split(header.value, ';'))
  {
  }

  /** The first `filename` parameter decides, when every parameter before it is a
      well-formed `key=value` with another key. */
  lemma {:induction false} FilenameFirst(params: seq<string>, i: nat, k: nat, value: string, jsonString: string -> Option<string>)
    requires i <= k < |params| && Param(params[k]) == Ok(("filename", value))
    requires forall j :: i <= j < k ==> Param(params[j]).Ok? && Param(params[j]).value.0 != "filename"
    ensures FilenameFrom(params, i, jsonString) == FilenameValue(value, jsonString)
    decreases k - i
  {
    if i < k {
      FilenameFirst(params, i + 1, k, value, jsonString);
    }
  }

  /** A parameter that is not a single `key=value` before any `filename` parameter
      makes `parse_filename` raise. */
  lemma {:induction false} FilenameMalformed(params: seq<string>, i: nat, k: nat, jsonString: string -> Option<string>)
    requires i <= k < |params| && Param(params[k]).Err?
    requires forall j :: i <= j < k ==> Param(params[j]).Ok? && Param(params[j]).value.0 != "filename"
    ensures FilenameFrom(params, i, jsonString).Err?
    decreases k - i
  {
    var kv := Param(params[i]);
    if i < k {
      FilenameMalformed(params, i + 1, k, jsonString);
      assert kv.Ok? && kv.value.0 != "filename";
    } else {
      assert kv.Err?;
    }
  }

  /** An unquoted value is returned as written. */
  lemma FilenamePlain(value: string, jsonString: string -> Option<string>)
    requires !Quoted(value)
    ensures FilenameValue(value, jsonString) == Ok(Some(value))
  {
  }

  /** The variable under which the download of `key` is recorded. */
  function CacheKey(key: string): string {
    "_dlcache." + key
  }

  /** The record `_write_cache_info` stores. */
  function Record(url: string, downloaded: string): string {
    url + ";" + downloaded
  }

  /** Python's truth value of a JSON value. */
  predicate Truthy(j: Json) {
    match j
    case Object(f) => |f| > 0
    case Array(a) => |a| > 0
    case Str(s) => s != ""
    case Int(i) => i != 0
    case Bool(b) => b
    case Null => false
  }

  /** `_read_cache_info` on what the lookup gave: `(None, None)` for a false value,
      else the two first `;`-separated fields of a string; `IndexError` without a `;`,
      `AttributeError` for anything but a string. */
  function ReadRecord(v: Result<Json>): Result<(Option<string>, Option<string>)> {
    match v
    case Err(e) => Err(e)
    case Ok(j) =>
      if !Truthy(j) then Ok((None, None))
      else if !j.Str? then Err("AttributeError")
      else
        var parts := Split(j.s, ';');
        if |parts| < 2 then Err("IndexError") else Ok((Some(parts[0]), Some(parts[1])))
  }

  /** `variables[key]`, as `VariableStore.GetItem` answers it. */
  function Lookup(sys: map<string, Json>, data: map<string, Json>, key: string): Result<Json> {
    if key in sys then Ok(sys[key]) else PlainGet(data, key)
  }

  /** A record of fields without `;` reads back as those fields. */
  lemma RecordRoundTrip(url: string, downloaded: string)
    requires ';' !in url && ';' !in downloaded
    ensures ReadRecord(Ok(Str(Record(url, downloaded)))) == Ok((Some(url), Some(downloaded)))
  {
    assert Record(url, downloaded) == url + [';'] + downloaded;
    SplitAtSeparator(url, downloaded, ';');
    SplitNoSeparator(downloaded, ';');
  }

  /** A download never recorded reads as `(None, None)`: either there is no `_dlcache`
      object, or it is an object without the (dot-free) key. */
  lemma UnsetCacheInfo(sys: map<string, Json>, data: map<string, Json>, key: string)
    requires CacheKey(key) !in sys
    requires Variables.Member(data, "_dlcache").Null? ||
      (Variables.Member(data, "_dlcache").Object? && '.' !in key && Variables.Member(Variables.Member(data, "_dlcache").fields, key).Null?)
    ensures ReadRecord(Lookup(sys, data, CacheKey(key))) == Ok((None, None))
  {
    assert CacheKey(key) == "_dlcache" + ['.'] + key;
    SplitAtSeparator("_dlcache", key, '.');
    var keys := Split(CacheKey(key), '.');
    assert keys[0] == "_dlcache";
    var cache := Variables.Member(data, "_dlcache");
    if cache.Object? {
      SplitNoSeparator(key, '.');
      assert keys == ["_dlcache", key];
      assert keys[1..] == [key];
      assert GetPath(cache, [key]) == Ok(Null);
    }
  }

  class SourceKit {
    const vars: VariableStore

    constructor (vars: VariableStore)
      ensures this.vars == vars
    {
      this.vars := vars;
    }

    /** `_write_cache_info(key, url, downloaded)`: stores the record through
        `__setitem__`; `ok` false where `plain_set` raises, which changes nothing. A
        successful write reads back as the two fields when neither holds a `;`. */
    method WriteCacheInfo(key: string, url: string, downloaded: string) returns (ok: bool)
      modifies vars
      ensures ok == (CacheKey(key) in old(vars.sys) || PlainSet(old(vars.data), CacheKey(key), Str(Record(url, downloaded))).Ok?)
      ensures !ok ==> vars.sys == old(vars.sys) && vars.data == old(vars.data) && vars.modified == old(vars.modified)
      ensures ok && ';' !in url && ';' !in downloaded ==>
        ReadRecord(Lookup(vars.sys, vars.data, CacheKey(key))) == Ok((Some(url), Some(downloaded)))
    {
      var k := CacheKey(key);
      var v := Str(Record(url, downloaded));
      ok := vars.SetItem(k, v);
      if ok && ';' !in url && ';' !in downloaded {
        RecordRoundTrip(url, downloaded);
        if k !in vars.sys {
          GetAfterSet(old(vars.data), Split(k, '.'), v);
        }
      }
    }

    /** `_read_cache_info(key)`. */
    method ReadCacheInfo(key: string) returns (r: Result<(Option<string>, Option<string>)>)
      ensures r == ReadRecord(Lookup(vars.sys, vars.data, CacheKey(key)))
    {
      var s := vars.GetItem(CacheKey(key));
      r := ReadRecord(s);
    }
  }

  /** An archive member: its path and whether it is a directory. */
  datatype Member = Member(path: string, isDir: bool)

  /** The test of the member loop as written: every later path starts with `folder`. */
  predicate AllStartWith(members: seq<Member>, folder: string) {
    forall k :: 1 <= k < |members| ==> StartsWith(members[k].path, folder)
  }

  /** The member loop of `TarExtractor.extract`/`ZipExtractor.extract` as written: the
      first member's path when it is a directory and every later path starts with it. */
  method FindRootAsWritten(members: seq<Member>) returns (folder: Option<string>)
    ensures folder.Some? <==> |members| > 0 && members[0].isDir && AllStartWith(members, members[0].path)
    ensures folder.Some? ==> folder.value == members[0].path
  {
    folder := None;
    var i := 0;
    while i < |members|
      invariant i <= |members|
      invariant i == 0 <==> folder.None?
      invariant i > 0 ==> members[0].isDir && folder == Some(members[0].path)
      invariant forall k :: 1 <= k < i ==> StartsWith(members[k].path, members[0].path)
    {
      var m := members[i];
      if m.isDir && folder.None? {
        folder := Some(m.path);
      } else {
        if folder.None? {
          break;
        }
        if !StartsWith(m.path, folder.value) {
          folder := None;
          break;
        }
      }
      i := i + 1;
    }
  }

  /** Two members that show the prefix test accepting a sibling: `ab` is not inside
      the directory `a`, yet starts with `a`. */
  lemma PrefixAcceptsSibling()
    ensures var ms := [Member("a", true), Member("ab", false)];
      AllStartWith(ms, "a") && !Inside("ab", "a")
  {
    var ms := [Member("a", true), Member("ab", false)];
    assert ms[1].path[..1] == "a";
    assert "a"[0..] == "a" && "a"[0] != "/"[0];
    assert DirPrefix("a") == "a/";
    assert "ab"[..2][1] != "a/"[1];
  }

  /** `folder` with exactly one trailing `/`, as a directory prefix. */
  function DirPrefix(folder: string): string {
    if EndsWith(folder, "/") then folder else folder + "/"
  }

  /** A path lies inside the directory `folder` (or is the directory itself). */
  predicate Inside(path: string, folder: string) {
    path == folder || StartsWith(path, DirPrefix(folder))
  }

  predicate AllInside(members: seq<Member>, folder: string) {
    forall k :: 1 <= k < |members| ==> Inside(members[k].path, folder)
  }

  /** The member loop with the evidently intended test: every later member lies inside
      the first member's directory. */
  method FindRoot(members: seq<Member>) returns (folder: Option<string>)
    ensures folder.Some? <==> |members| > 0 && members[0].isDir && AllInside(members, members[0].path)
    ensures folder.Some? ==> folder.value == members[0].path
  {
    folder := None;
    var i := 0;
    while i < |members|
      invariant i <= |members|
      invariant i == 0 <==> folder.None?
      invariant i > 0 ==> members[0].isDir && folder == Some(members[0].path)
      invariant forall k :: 1 <= k < i ==> Inside(members[k].path, members[0].path)
    {
      var m := members[i];
      if m.isDir && folder.None? {
        folder := Some(m.path);
      } else {
        if folder.None? {
          break;
        }
        if !Inside(m.path, folder.value) {
          folder := None;
          break;
        }
      }
      i := i + 1;
    }
  }

  /** For a directory name that ends in `/` (as zip directory names do) the intended
      test and the prefix test agree, apart from the directory itself. */
  lemma InsideSlashDir(path: string, folder: string)
    requires EndsWith(folder, "/")
    ensures Inside(path, folder) <==> StartsWith(path, folder)
  {
    if path == folder {
      assert path[..|folder|] == folder;
    }
  }

  /** Where an archive is extracted: into the root as its own single folder `folder`,
      or into a new folder `name` that wraps its members. */
  datatype Placement = Rooted(folder: string) | Wrapped(name: string)

  const TAR_SUFFIXES: seq<string> := [".tar.gz", ".tgz", ".tar.bz2", ".tbz", ".tar.xz", ".txz"]
  const ZIP_SUFFIXES: seq<string> := [".zip"]

  /** `TarExtractor.extract` up to `extractall`: a non-empty single root is used as it
      is; otherwise the archive is wrapped in the folder named after it. */
  method TarPlacement(target: string, members: seq<Member>) returns (p: Placement)
    ensures |members| > 0 && members[0].isDir && members[0].path != "" && AllInside(members, members[0].path) ==>
      p == Rooted(members[0].path)
    ensures !(|members| > 0 && members[0].isDir && members[0].path != "" && AllInside(members, members[0].path)) ==>
      p == Wrapped(FolderNameOf(target, TAR_SUFFIXES))
  {
    var folder := FindRoot(members);
    if folder.Some? && folder.value != "" {
      return Rooted(folder.value);
    }
    var name := FolderName(target, TAR_SUFFIXES);
    p := Wrapped(name);
  }

  /** `folder[:-1]` when `folder` ends with `/`. */
  function StripSlash(folder: string): (r: string)
    ensures EndsWith(folder, "/") ==> r + "/" == folder
    ensures !EndsWith(folder, "/") ==> r == folder
  {
    if EndsWith(folder, "/") then folder[..|folder| - 1] else folder
  }

  /** `ZipExtractor.extract` up to `extractall`: as for tar files, with one trailing `/`
      removed from the root folder. */
  method ZipPlacement(target: string, members: seq<Member>) returns (p: Placement)
    ensures |members| > 0 && members[0].isDir && members[0].path != "" && AllInside(members, members[0].path) ==>
      p == Rooted(StripSlash(members[0].path))
    ensures !(|members| > 0 && members[0].isDir && members[0].path != "" && AllInside(members, members[0].path)) ==>
      p == Wrapped(FolderNameOf(target, ZIP_SUFFIXES))
  {
    var folder := FindRoot(members);
    if folder.Some? && folder.value != "" {
      return Rooted(StripSlash(folder.value));
    }
    var name := FolderName(target, ZIP_SUFFIXES);
    p := Wrapped(name);
  }
}
