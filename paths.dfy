/** POSIX path helpers used by handleFile: path.basename, path.dirname,
    path.extname, path.join and replace-ext, for paths without trailing
    slashes and whose only `.` segments to normalise lead a directory. */
module Paths {

  /** Index of the last occurrence of `c` in `s`, or -1. */
  function LastIndex(s: string, c: char): (k: int)
    ensures -1 <= k < |s|
    ensures 0 <= k ==> s[k] == c
    ensures forall j :: k < j < |s| ==> s[j] != c
  {
    if s == [] then -1
    else if s[|s| - 1] == c then |s| - 1
    else LastIndex(s[..|s| - 1], c)
  }

  predicate NoSlash(s: string) {
    forall i :: 0 <= i < |s| ==> s[i] != '/'
  }

  /** `ext` is a suffix of `base`. */
  predicate IsSuffix(ext: string, base: string) {
    |ext| <= |base| && base[|base| - |ext|..] == ext
  }

  /** path.basename: everything after the last slash. */
  function Basename(p: string): string {
    p[LastIndex(p, '/') + 1..]
  }

  /** path.dirname: everything before the last slash; "." with no slash,
      "/" for an entry of the root. */
  function Dirname(p: string): string {
    var k := LastIndex(p, '/');
    if k < 0 then "." else if k == 0 then "/" else p[..k]
  }

  /** path.extname of a basename: from its last dot, unless that dot is its
      first character or the name is "..". */
  function Extname(base: string): (ext: string)
    ensures ext == "" || (ext[0] == '.' && IsSuffix(ext, base))
  {
    var k := LastIndex(base, '.');
    if k <= 0 || base == ".." then "" else base[k..]
  }

  /** path.basename(p, path.extname(p)) applied to a basename: the name
      without its extension. */
  function Stem(base: string): string {
    var ext := Extname(base);
    base[..|base| - |ext|]
  }

  /** A directory without its leading `./` segments, which path.join's
      normalisation removes. */
  function StripCurrentDir(dir: string): (d: string)
    ensures IsSuffix(d, dir)
    ensures !(|d| >= 2 && d[0] == '.' && d[1] == '/')
    decreases |dir|
  {
    if |dir| >= 2 && dir[0] == '.' && dir[1] == '/' then StripCurrentDir(dir[2..]) else dir
  }

  /** path.join of a directory and one more name. */
  function Join(dir: string, name: string): string {
    var d := StripCurrentDir(dir);
    if d == "" || d == "." then name
    else if d[|d| - 1] == '/' then d + name
    else d + "/" + name
  }

  /** replace-ext: rewrite the extension of the last component of `p`. */
  function ReplaceExt(p: string, ext: string): string {
    if p == "" then p else Join(Dirname(p), Stem(Basename(p)) + ext)
  }

  /** The basename is the longest slash-free suffix: it has no slash, ends
      the path, and is preceded by a slash when it is not the whole path. */
  lemma BasenameIsLastComponent(p: string)
    ensures var b := Basename(p);
      NoSlash(b) && IsSuffix(b, p) && (|b| < |p| ==> p[|p| - |b| - 1] == '/')
  {
    BasenameHasNoSlash(p);
  }

  lemma BasenameHasNoSlash(p: string)
    ensures NoSlash(Basename(p))
  {
    var k := LastIndex(p, '/');
    var b := p[k + 1..];
    forall i | 0 <= i < |b| ensures b[i] != '/' {
      assert b[i] == p[k + 1 + i];
    }
    assert b == Basename(p);
  }

  lemma JoinNonEmpty(dir: string, name: string)
    requires name != ""
    ensures Join(dir, name) != ""
  {
    JoinShape(dir, name);
  }

  /** The dirname and the basename put back together give the path: "."
      for a slash-free path, otherwise the dirname, a slash and the
      basename (the slash being the dirname itself for an entry of the root). */
  lemma DirnameSplits(p: string)
    ensures NoSlash(p) ==> Dirname(p) == "."
    ensures !NoSlash(p) ==>
      p == Dirname(p) + "/" + Basename(p) || (Dirname(p) == "/" && p == Dirname(p) + Basename(p))
  {
    var k := LastIndex(p, '/');
    if k < 0 {
      assert NoSlash(p);
    } else if k == 0 {
      assert !NoSlash(p);
      assert p == "/" + p[1..];
    } else {
      assert !NoSlash(p);
      assert p == p[..k] + "/" + p[k + 1..];
    }
  }

  /** The stem followed by the extension is the name. */
  lemma StemAndExtname(base: string)
    ensures Stem(base) + Extname(base) == base
  {
  }

  /** path.join ends with the name; an empty or "." directory gives the name
      alone, and otherwise the directory without its leading `./` segments
      comes first, followed by a separator exactly when it lacks one. */
  lemma JoinShape(dir: string, name: string)
    ensures IsSuffix(name, Join(dir, name))
    ensures var d := StripCurrentDir(dir);
      if d == "" || d == "." then Join(dir, name) == name
      else (Join(dir, name) == d + name <==> d[|d| - 1] == '/') &&
           (Join(dir, name) == d + name || Join(dir, name) == d + "/" + name)
  {
    var d := StripCurrentDir(dir);
    var p := Join(dir, name);
    if d == "" || d == "." {
      assert p == name;
    } else {
      var sep := if d[|d| - 1] == '/' then d else d + "/";
      assert p == sep + name;
      assert p[|sep|..] == name;
    }
  }

  /** replace-ext leaves an empty path as it is, and otherwise gives a path
      ending with the new extension. */
  lemma ReplaceExtEndsWith(p: string, ext: string)
    ensures p == "" ==> ReplaceExt(p, ext) == ""
    ensures p != "" ==> IsSuffix(ext, ReplaceExt(p, ext))
  {
    if p != "" {
      var name := Stem(Basename(p)) + ext;
      JoinShape(Dirname(p), name);
      assert name[|name| - |ext|..] == ext;
      SuffixOfSuffix(ext, name, ReplaceExt(p, ext));
    }
  }

  lemma SuffixOfSuffix(a: string, b: string, c: string)
    requires IsSuffix(a, b) && IsSuffix(b, c)
    ensures IsSuffix(a, c)
  {
    assert c[|c| - |a|..] == b[|b| - |a|..];
  }

  lemma BasenameOfSlashFree(p: string)
    requires NoSlash(p)
    ensures Basename(p) == p
  {
    assert LastIndex(p, '/') == -1 by {
      var k := LastIndex(p, '/');
      if k >= 0 { assert p[k] == '/'; }
    }
  }

  lemma BasenameAfterSeparator(sep: string, name: string)
    requires sep != "" && sep[|sep| - 1] == '/' && NoSlash(name)
    ensures Basename(sep + name) == name
  {
    var p := sep + name;
    LastIndexOfSlashFreeSuffix(sep, name, '/');
    assert LastIndex(sep, '/') == |sep| - 1;
    assert p[|sep|..] == name;
  }

  lemma LastIndexOfSlashFreeSuffix(dir: string, name: string, c: char)
    requires forall i :: 0 <= i < |name| ==> name[i] != c
    ensures LastIndex(dir + name, c) == LastIndex(dir, c)
    decreases |name|
  {
    if name != [] {
      var s := dir + name;
      assert s[..|s| - 1] == dir + name[..|name| - 1];
      LastIndexOfSlashFreeSuffix(dir, name[..|name| - 1], c);
    } else {
      assert dir + name == dir;
    }
  }

  /** Joining a slash-free name to a directory gives a path whose basename is that name. */
  lemma {:induction false} BasenameOfJoin(dir: string, name: string)
    requires NoSlash(name)
    ensures Basename(Join(dir, name)) == name
  {
    var d := StripCurrentDir(dir);
    if d == "" || d == "." {
      BasenameOfSlashFree(name);
    } else {
      var sep := if d[|d| - 1] == '/' then d else d + "/";
      assert Join(dir, name) == sep + name;
      BasenameAfterSeparator(sep, name);
    }
  }

  /** replace-ext changes only the last component: its new basename is the
      old one without its extension, followed by the new extension. */
  lemma {:induction false} BasenameOfReplaceExt(p: string, ext: string)
    requires p != "" && NoSlash(ext)
    ensures Basename(ReplaceExt(p, ext)) == Stem(Basename(p)) + ext
  {
    var base := Basename(p);
    var stem := Stem(base);
    BasenameHasNoSlash(p);
    NoSlashConcat(stem, ext, base);
    assert ReplaceExt(p, ext) == Join(Dirname(p), stem + ext);
    BasenameOfJoin(Dirname(p), stem + ext);
  }

  /** A directory without leading `./` segments is left as it is. */
  lemma StripCurrentDirIdempotent(dir: string)
    ensures StripCurrentDir(StripCurrentDir(dir)) == StripCurrentDir(dir)
  {
  }

  /** Joining a slash-free name to a directory that is neither empty, "." nor
      ends with a slash puts the name directly under that directory, as
      normalised. */
  lemma {:induction false} DirnameOfJoin(dir: string, name: string)
    requires NoSlash(name)
    requires var d := StripCurrentDir(dir); d != "" && d != "." && d[|d| - 1] != '/'
    ensures Dirname(Join(dir, name)) == StripCurrentDir(dir)
  {
    var d := StripCurrentDir(dir);
    var sep := d + "/";
    var p := Join(dir, name);
    assert p == sep + name;
    LastIndexOfSlashFreeSuffix(sep, name, '/');
    LastIndexOfLast(sep, '/');
    var k := LastIndex(p, '/');
    assert k == |d| > 0;
    assert Dirname(p) == p[..k];
    assert p[..k] == d;
  }

  lemma LastIndexOfLast(s: string, c: char)
    requires s != [] && s[|s| - 1] == c
    ensures LastIndex(s, c) == |s| - 1
  {
  }

  /** replace-ext keeps a joined path in the directory it was joined to. */
  lemma {:induction false} DirnameOfReplaceExt(dir: string, name: string, ext: string)
    requires NoSlash(name) && NoSlash(ext)
    requires var d := StripCurrentDir(dir); d != "" && d != "." && d[|d| - 1] != '/'
    ensures Dirname(ReplaceExt(Join(dir, name), ext)) == StripCurrentDir(dir)
  {
    var d := StripCurrentDir(dir);
    var p := Join(dir, name);
    JoinShape(dir, name);
    DirnameOfJoin(dir, name);
    var stem := Stem(Basename(p));
    NoSlashConcat(stem, ext, Basename(p));
    assert ReplaceExt(p, ext) == Join(d, stem + ext);
    StripCurrentDirIdempotent(dir);
    DirnameOfJoin(d, stem + ext);
  }

  /** A prefix of a slash-free name followed by a slash-free extension has no slash. */
  lemma NoSlashConcat(stem: string, ext: string, base: string)
    requires NoSlash(ext) && |stem| <= |base| && base[..|stem|] == stem
    ensures NoSlash(stem + ext) || !NoSlash(base)
  {
    if NoSlash(base) {
      forall i | 0 <= i < |stem + ext| ensures (stem + ext)[i] != '/' {
        if i < |stem| { assert (stem + ext)[i] == base[i]; }
        else { assert (stem + ext)[i] == ext[i - |stem|]; }
      }
    }
  }

  /** A name with a non-empty stem, given a new extension, has that extension. */
  lemma ExtnameAfterReplace(stem: string, ext: string)
    requires stem != "" && |ext| >= 2
    requires forall i :: 0 <= i < |ext| ==> (i == 0 <==> ext[i] == '.')
    ensures Extname(stem + ext) == ext
  {
    var s := stem + ext;
    var k := LastIndex(s, '.');
    assert s[|stem|] == '.';
    assert k >= |stem|;
    assert k == |stem|;
    assert s[k..] == ext;
  }

  /** The program's own paths: the source ./src/a.jpg is joined to ./dest as
      dest/a.jpg, which replace-ext turns into dest/a.webp. */
  lemma RenameScenario()
    ensures Basename("./src/a.jpg") == "a.jpg"
    ensures Join("./dest", "a.jpg") == "dest/a.jpg"
    ensures ReplaceExt("dest/a.jpg", ".webp") == "dest/a.webp"
  {
    SourceName();
    JoinDest();
    ReplaceDest();
  }

  lemma JoinDest()
    ensures Join("./dest", "a.jpg") == "dest/a.jpg"
  {
    assert "./dest"[2..] == "dest";
    assert StripCurrentDir("./dest") == "dest";
    assert Join("./dest", "a.jpg") == "dest" + "/" + "a.jpg";
  }

  lemma ReplaceDest()
    ensures ReplaceExt("dest/a.jpg", ".webp") == "dest/a.webp"
  {
    DestParts();
    StemOfJpg();
    assert ReplaceExt("dest/a.jpg", ".webp") == Join("dest", "a.webp");
    assert StripCurrentDir("dest") == "dest";
    assert Join("dest", "a.webp") == "dest" + "/" + "a.webp";
  }

  lemma SourceName()
    ensures Basename("./src/a.jpg") == "a.jpg"
  {
    assert "./src/a.jpg" == "./src/" + "a.jpg";
    LastIndexOfSlashFreeSuffix("./src/", "a.jpg", '/');
  }

  lemma DestParts()
    ensures Dirname("dest/a.jpg") == "dest" && Basename("dest/a.jpg") == "a.jpg"
  {
    assert "dest/a.jpg" == "dest/" + "a.jpg";
    LastIndexOfSlashFreeSuffix("dest/", "a.jpg", '/');
  }

  lemma StemOfJpg()
    ensures Stem("a.jpg") == "a"
  {
    assert "a.jpg" == "a." + "jpg";
    LastIndexOfSlashFreeSuffix("a.", "jpg", '.');
  }
}
