/**
 * The posixpath helpers get_pdf_dir_and_name and transcribe_batch rely on, on '/'-separated
 * strings: basename, dirname, splitext and join, and the script's own naming conventions for
 * the working directory and the default pages file next to the PDF.
 */
module Paths {
  import opened Wrappers
  import opened Text

  /** str.rfind(c): the last index holding c, or -1 when there is none. */
  function RFind(s: string, c: char): (i: int)
    ensures -1 <= i < |s|
    ensures i >= 0 ==> s[i] == c
    ensures forall k :: i < k < |s| ==> s[k] != c
  {
    if s == [] then -1
    else if s[|s| - 1] == c then |s| - 1
    else RFind(s[..|s| - 1], c)
  }

  /** Every character of s is c (true of the empty string). */
  predicate AllChar(s: string, c: char)
  {
    forall k :: 0 <= k < |s| ==> s[k] == c
  }

  /** str.rstrip(c). */
  function TrimTrailing(s: string, c: char): (r: string)
    ensures |r| <= |s| && r == s[..|r|]
    ensures AllChar(s[|r|..], c)
    ensures r != [] ==> r[|r| - 1] != c
  {
    if s != [] && s[|s| - 1] == c then TrimTrailing(s[..|s| - 1], c) else s
  }

  /** posixpath.basename: what follows the last '/'. */
  function Basename(p: string): string
  {
    p[RFind(p, '/') + 1..]
  }

  /** posixpath.dirname: what precedes the last '/', with its trailing slashes removed unless
      it consists of slashes only (so "/x" gives "/" and "x" gives ""). */
  function Dirname(p: string): string
  {
    var head := p[..RFind(p, '/') + 1];
    if head != [] && !AllChar(head, '/') then TrimTrailing(head, '/') else head
  }

  /** posixpath.splitext: the extension starts at the last '.' of the last path component,
      provided a character other than '.' comes before it in that component; otherwise the
      extension is empty ("archive.tar.gz" -> ".gz", ".bashrc" -> no extension). */
  function Splitext(p: string): (string, string)
  {
    var sep := RFind(p, '/');
    var dot := RFind(p, '.');
    if dot > sep && !AllChar(p[sep + 1..dot], '.') then (p[..dot], p[dot..]) else (p, [])
  }

  /** posixpath.join(a, b): an absolute b replaces a; otherwise a '/' is inserted unless a is
      empty or already ends with one. */
  function PathJoin(a: string, b: string): string
  {
    if |b| > 0 && b[0] == '/' then b
    else if a == [] || a[|a| - 1] == '/' then a + b
    else a + "/" + b
  }

  /** get_pdf_dir_and_name: the directory of the absolute PDF path and the file name without
      its extension. os.path.abspath depends on the working directory, so its result is an
      input here. */
  function PdfDirAndName(pdfPath: string, absPdfPath: string): (string, string)
  {
    (Dirname(absPdfPath), Splitext(Basename(pdfPath)).0)
  }

  /** f"{pdf_dir}/temp_{pdf_name}": the page images, and also where transcripts are written. */
  function ImageDir(pdfDir: string, pdfName: string): string
  {
    pdfDir + "/temp_" + pdfName
  }

  /** f"{pdf_dir}/pages_{pdf_name}.txt": the pages file used when none is given. */
  function DefaultPagesFile(pdfDir: string, pdfName: string): string
  {
    pdfDir + "/pages_" + pdfName + ".txt"
  }

  /** The pages file: the one given, unless it is missing (None) or empty. */
  function PagesFile(given: Option<string>, pdfDir: string, pdfName: string): string
  {
    match given
    case Some(f) => if f == "" then DefaultPagesFile(pdfDir, pdfName) else f
    case None => DefaultPagesFile(pdfDir, pdfName)
  }

  /** basename keeps exactly the last component: it holds no '/', ends p, and is preceded by
      a '/' unless it is all of p. */
  lemma BasenameSpec(p: string)
    ensures var b := Basename(p);
      && '/' !in b
      && |b| <= |p|
      && p[|p| - |b|..] == b
      && (|b| < |p| ==> p[|p| - |b| - 1] == '/')
  {
  }

  /** Root and extension put back together give the path; a non-empty extension is one '.'
      followed by neither '.' nor '/', after a last component that is not all dots. */
  lemma SplitextSpec(p: string)
    ensures Splitext(p).0 + Splitext(p).1 == p
    ensures Splitext(p).1 != [] ==>
      Splitext(p).1[0] == '.' && '.' !in Splitext(p).1[1..] && '/' !in Splitext(p).1
    ensures Splitext(p).1 != [] ==> !AllChar(Basename(Splitext(p).0), '.')
  {
    var sep := RFind(p, '/');
    var dot := RFind(p, '.');
    if dot > sep && !AllChar(p[sep + 1..dot], '.') {
      assert Splitext(p) == (p[..dot], p[dot..]);
      ExtensionAt(p, sep, dot);
    }
  }

  /** Cutting p at its last '.', which lies after its last '/'. */
  lemma ExtensionAt(p: string, sep: int, dot: int)
    requires -1 <= sep < dot < |p| && p[dot] == '.' && (sep >= 0 ==> p[sep] == '/')
    requires forall k :: dot < k < |p| ==> p[k] != '.'
    requires forall k :: sep < k < |p| ==> p[k] != '/'
    ensures p[..dot] + p[dot..] == p
    ensures p[dot..][0] == '.' && '.' !in p[dot..][1..] && '/' !in p[dot..]
    ensures Basename(p[..dot]) == p[sep + 1..dot]
  {
    var root, ext := p[..dot], p[dot..];
    var tail := p[dot + 1..];
    assert ext[1..] == tail;
    assert forall k :: 0 <= k < |tail| ==> tail[k] == p[dot + 1 + k];
    assert forall k :: sep < k < |root| ==> root[k] == p[k];
    RFindUnique(root, '/', sep);
  }

  /** Any index holding c with no c after it is the last index (-1: c does not occur). */
  lemma RFindUnique(s: string, c: char, i: int)
    requires -1 <= i < |s|
    requires i >= 0 ==> s[i] == c
    requires forall k :: i < k < |s| ==> s[k] != c
    ensures RFind(s, c) == i
  {
  }

  /** A name with a dot-free extension after a stem that is not only dots splits at that dot. */
  lemma SplitextOfName(stem: string, ext: string)
    requires '/' !in stem && '/' !in ext && '.' !in ext
    requires !AllChar(stem, '.')
    ensures Splitext(stem + "." + ext) == (stem, "." + ext)
  {
    var p := stem + "." + ext;
    assert p[|stem|] == '.';
    assert forall k :: |stem| < k < |p| ==> p[k] == ext[k - |stem| - 1];
    assert RFind(p, '.') == |stem|;
    assert forall k :: 0 <= k < |p| ==> p[k] != '/' by {
      forall k | 0 <= k < |p| ensures p[k] != '/' {
        if k < |stem| {
          assert p[k] == stem[k];
        } else if k > |stem| {
          assert p[k] == ext[k - |stem| - 1];
        }
      }
    }
    assert RFind(p, '/') == -1;
    assert p[0..|stem|] == stem;
    assert p[..|stem|] == stem && p[|stem|..] == "." + ext;
  }

  /** A name without any '.' has no extension. */
  lemma SplitextNoDot(p: string)
    requires '.' !in p
    ensures Splitext(p) == (p, [])
  {
  }

  /** Leading dots do not start an extension: ".bashrc" keeps its name whole. */
  lemma SplitextHiddenName(name: string)
    requires '/' !in name && '.' !in name
    ensures Splitext("." + name) == ("." + name, [])
  {
    var p := "." + name;
    assert forall k :: 1 <= k < |p| ==> p[k] == name[k - 1];
    RFindUnique(p, '.', 0);
    RFindUnique(p, '/', -1);
  }

  /** Joining a directory with a plain file name: the file name is the basename. */
  lemma BasenameOfJoin(dir: string, name: string)
    requires name != [] && '/' !in name
    ensures Basename(PathJoin(dir, name)) == name
  {
    var p := PathJoin(dir, name);
    assert p[|p| - |name|..] == name;
    assert forall k :: |p| - |name| <= k < |p| ==> p[k] == name[k - (|p| - |name|)];
    if |p| > |name| {
      assert p[|p| - |name| - 1] == '/';
    }
  }

  /** Joining one directory with two relative names gives the same path only for the same
      name. */
  lemma PathJoinInjective(dir: string, a: string, b: string)
    requires a != [] && a[0] != '/' && b != [] && b[0] != '/'
    ensures PathJoin(dir, a) == PathJoin(dir, b) <==> a == b
  {
    var head := if dir == [] || dir[|dir| - 1] == '/' then dir else dir + "/";
    assert PathJoin(dir, a) == head + a && PathJoin(dir, b) == head + b;
    if PathJoin(dir, a) == PathJoin(dir, b) {
      assert a == (head + a)[|head|..];
      assert b == (head + b)[|head|..];
    }
  }

  /** Joining a directory that does not end in '/' with a plain file name: the directory is
      the dirname. */
  lemma DirnameOfJoin(dir: string, name: string)
    requires dir != [] && dir[|dir| - 1] != '/'
    requires '/' !in name
    ensures Dirname(PathJoin(dir, name)) == dir
  {
    var p := dir + "/" + name;
    assert forall k :: |dir| < k < |p| ==> p[k] == name[k - |dir| - 1];
    assert p[|dir|] == '/';
    assert RFind(p, '/') == |dir|;
    var head := p[..|dir| + 1];
    assert head == dir + "/";
    assert head[|dir| - 1] == dir[|dir| - 1];
    assert !AllChar(head, '/');
    assert TrimTrailing(head, '/') == TrimTrailing(dir, '/');
  }

  /** "dir/stem.pdf", already absolute: the directory and the stem come back. */
  lemma PdfDirAndNameOfPath(dir: string, stem: string)
    requires dir != [] && dir[|dir| - 1] != '/'
    requires stem != [] && '/' !in stem && !AllChar(stem, '.')
    ensures var p := PathJoin(dir, stem + ".pdf");
      PdfDirAndName(p, p) == (dir, stem)
  {
    var name := stem + ".pdf";
    assert name == stem + "." + "pdf";
    assert '/' !in name;
    BasenameOfJoin(dir, name);
    DirnameOfJoin(dir, name);
    SplitextOfName(stem, "pdf");
  }

  /** The PDF's name holds no '/', so the working directory is one level below the PDF's
      directory and does not end in '/'. */
  lemma PdfNamePlain(pdfPath: string, absPdfPath: string)
    ensures '/' !in PdfDirAndName(pdfPath, absPdfPath).1
    ensures ImageDir(PdfDirAndName(pdfPath, absPdfPath).0, PdfDirAndName(pdfPath, absPdfPath).1)
      [|ImageDir(PdfDirAndName(pdfPath, absPdfPath).0, PdfDirAndName(pdfPath, absPdfPath).1)| - 1] != '/'
  {
    BasenameSpec(pdfPath);
    RootPlain(Basename(pdfPath));
    ImageDirPlain(Dirname(absPdfPath), Splitext(Basename(pdfPath)).0);
  }

  /** The root of a plain file name is plain. */
  lemma RootPlain(base: string)
    requires '/' !in base
    ensures '/' !in Splitext(base).0
  {
    SplitextSpec(base);
    var name := Splitext(base).0;
    assert forall k :: 0 <= k < |name| ==> name[k] == base[k];
  }

  /** The working directory of a plain name does not end in '/'. */
  lemma ImageDirPlain(pdfDir: string, pdfName: string)
    requires '/' !in pdfName
    ensures ImageDir(pdfDir, pdfName)[|ImageDir(pdfDir, pdfName)| - 1] != '/'
  {
    var dir := ImageDir(pdfDir, pdfName);
    if pdfName != [] {
      assert dir[|dir| - 1] == pdfName[|pdfName| - 1];
    } else {
      assert dir[|dir| - 1] == '_';
    }
  }

  /** The working directory and the default pages file sit side by side in the PDF's
      directory, and they never coincide. */
  lemma ConventionsSpec(pdfDir: string, pdfName: string)
    requires pdfDir != [] && pdfDir[|pdfDir| - 1] != '/' && '/' !in pdfName
    ensures ImageDir(pdfDir, pdfName) == PathJoin(pdfDir, "temp_" + pdfName)
    ensures DefaultPagesFile(pdfDir, pdfName) == PathJoin(pdfDir, "pages_" + pdfName + ".txt")
    ensures Dirname(ImageDir(pdfDir, pdfName)) == pdfDir
    ensures Dirname(DefaultPagesFile(pdfDir, pdfName)) == pdfDir
    ensures Basename(ImageDir(pdfDir, pdfName)) == "temp_" + pdfName
    ensures Basename(DefaultPagesFile(pdfDir, pdfName)) == "pages_" + pdfName + ".txt"
    ensures ImageDir(pdfDir, pdfName) != DefaultPagesFile(pdfDir, pdfName)
  {
    var t, g := "temp_" + pdfName, "pages_" + pdfName + ".txt";
    assert '/' !in t && '/' !in g;
    assert pdfDir + "/temp_" + pdfName == pdfDir + "/" + t;
    assert pdfDir + "/pages_" + pdfName + ".txt" == pdfDir + "/" + g;
    DirnameOfJoin(pdfDir, t);
    DirnameOfJoin(pdfDir, g);
    BasenameOfJoin(pdfDir, t);
    BasenameOfJoin(pdfDir, g);
    assert t[0] != g[0];
    assert (pdfDir + "/" + t)[|pdfDir| + 1] == t[0];
    assert (pdfDir + "/" + g)[|pdfDir| + 1] == g[0];
  }

  /** Without an explicit pages file the default one is used. */
  lemma PagesFileDefault(given: Option<string>, pdfDir: string, pdfName: string)
    ensures PagesFile(given, pdfDir, pdfName) == DefaultPagesFile(pdfDir, pdfName)
        <==> given == None || given == Some("") || given == Some(DefaultPagesFile(pdfDir, pdfName))
  {
  }
}
