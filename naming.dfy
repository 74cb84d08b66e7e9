/**
 * The names transcribe_batch derives from a group's pages: the page image it looks for,
 * the transcript file it writes and the prompt it sends.
 */
module Naming {
  import opened Wrappers
  import opened Text
  import opened Paths

  /** f"page-{num:02d}.png". */
  function ImageName(num: nat): string
  {
    "page-" + Pad2(num) + ".png"
  }

  /** os.path.join(image_dir, file_name). */
  function ImagePath(imageDir: string, num: nat): string
  {
    PathJoin(imageDir, ImageName(num))
  }

  /** The padded numbers of a page list, in list order. */
  function PaddedPages(pages: seq<nat>): seq<string>
  {
    seq(|pages|, k requires 0 <= k < |pages| => Pad2(pages[k]))
  }

  /** safe_name: '_'.join of the padded page numbers. */
  function SafeName(pages: seq<nat>): string
  {
    Join(PaddedPages(pages), "_")
  }

  /** f"ocr_{model_key}_pages_{safe_name}.md". */
  function OutputName(modelKey: string, pages: seq<nat>): string
  {
    "ocr_" + modelKey + "_pages_" + SafeName(pages) + ".md"
  }

  /** os.path.join(output_dir, output name). */
  function OutputPath(outputDir: string, modelKey: string, pages: seq<nat>): string
  {
    PathJoin(outputDir, OutputName(modelKey, pages))
  }

  const UserPromptPrefix := "Transcribe these letter pages, in the following order: "

  /** USER_PROMPT.format(pages): the prompt quotes the page list as Python prints it. */
  function UserPrompt(pages: seq<nat>): string
  {
    UserPromptPrefix + ListRepr(pages)
  }

  /** safe_name read back: for a non-empty page list, splitting at '_' gives one field per
      page, and int() of each field is that page; no pages give the empty name. */
  lemma SafeNameFields(pages: seq<nat>)
    ensures pages == [] ==> SafeName(pages) == ""
    ensures pages != [] ==> |Split(SafeName(pages), '_')| == |pages|
    ensures pages != [] ==> forall k :: 0 <= k < |pages| ==> ParseInt(Split(SafeName(pages), '_')[k]) == Some(pages[k])
  {
    var padded := PaddedPages(pages);
    forall k | 0 <= k < |pages| ensures '_' !in padded[k] && ParseInt(padded[k]) == Some(pages[k]) {
      Pad2Shape(pages[k]);
      Pad2Parses(pages[k]);
    }
    if pages != [] {
      JoinThenSplit(padded, '_');
    }
  }

  /** Different pages have different image names, and an image name is a plain file name. */
  lemma ImageNameInjective(a: nat, b: nat)
    ensures ImageName(a) == ImageName(b) <==> a == b
    ensures '/' !in ImageName(a)
  {
    Pad2Shape(a);
    if ImageName(a) == ImageName(b) {
      Pad2Shape(b);
      var pa, pb := Pad2(a), Pad2(b);
      assert |pa| == |pb|;
      assert pa == ImageName(a)[5..5 + |pa|];
      assert pb == ImageName(b)[5..5 + |pb|];
      Pad2Injective(a, b);
    }
    var n := ImageName(a);
    assert forall k :: 5 <= k < 5 + |Pad2(a)| ==> n[k] == Pad2(a)[k - 5];
  }

  /** The image the loop looks for is that file name inside the image directory. */
  lemma ImagePathSpec(imageDir: string, num: nat)
    ensures Basename(ImagePath(imageDir, num)) == ImageName(num)
    ensures imageDir != [] && imageDir[|imageDir| - 1] != '/' ==>
      Dirname(ImagePath(imageDir, num)) == imageDir
  {
    ImageNameInjective(num, num);
    BasenameOfJoin(imageDir, ImageName(num));
    if imageDir != [] && imageDir[|imageDir| - 1] != '/' {
      DirnameOfJoin(imageDir, ImageName(num));
    }
  }

  /** Page 7 is page-07.png; page 123 keeps all three digits. */
  lemma ImageNameExamples()
    ensures ImageName(7) == "page-07.png"
    ensures ImageName(123) == "page-123.png"
  {
    assert Decimal(7) == "7";
    assert Decimal(123) == "123";
  }

  /** The safe name determines the page list: padded numbers contain no '_' and padding is
      injective. */
  lemma SafeNameInjective(p: seq<nat>, q: seq<nat>)
    requires SafeName(p) == SafeName(q)
    ensures p == q
  {
    var pp, qq := PaddedPages(p), PaddedPages(q);
    assert |pp| == |p| && |qq| == |q|;
    forall k | 0 <= k < |p| ensures '_' !in pp[k] && pp[k] != [] {
      assert pp[k] == Pad2(p[k]);
      Pad2Shape(p[k]);
    }
    forall k | 0 <= k < |q| ensures '_' !in qq[k] && qq[k] != [] {
      assert qq[k] == Pad2(q[k]);
      Pad2Shape(q[k]);
    }
    if p == [] || q == [] {
      if p != [] {
        NonEmptyJoin(pp, "_");
      } else if q != [] {
        NonEmptyJoin(qq, "_");
      }
    } else {
      JoinThenSplit(pp, '_');
      JoinThenSplit(qq, '_');
      assert pp == qq;
      forall k | 0 <= k < |p| ensures p[k] == q[k] {
        assert Pad2(p[k]) == pp[k] == qq[k] == Pad2(q[k]);
        Pad2Injective(p[k], q[k]);
      }
    }
  }

  /** Joining at least one non-empty piece gives a non-empty string. */
  lemma NonEmptyJoin(parts: seq<string>, sep: string)
    requires parts != [] && parts[0] != []
    ensures Join(parts, sep) != []
  {
  }

  /** For one model, the output name determines the pages: distinct groups are written to
      distinct files unless they list the same pages. */
  lemma OutputNameInjective(modelKey: string, p: seq<nat>, q: seq<nat>)
    ensures OutputName(modelKey, p) == OutputName(modelKey, q) <==> p == q
  {
    if OutputName(modelKey, p) == OutputName(modelKey, q) {
      var head := "ocr_" + modelKey + "_pages_";
      var a, b := OutputName(modelKey, p), OutputName(modelKey, q);
      assert a == head + SafeName(p) + ".md";
      assert SafeName(p) == a[|head|..|a| - 3];
      assert SafeName(q) == b[|head|..|b| - 3];
      SafeNameInjective(p, q);
    }
  }

  /** For one model and one output directory, distinct page lists are written to distinct
      paths. */
  lemma OutputPathInjective(outputDir: string, modelKey: string, p: seq<nat>, q: seq<nat>)
    ensures OutputPath(outputDir, modelKey, p) == OutputPath(outputDir, modelKey, q) <==> p == q
  {
    PathJoinInjective(outputDir, OutputName(modelKey, p), OutputName(modelKey, q));
    OutputNameInjective(modelKey, p, q);
  }

  /** The output file is a plain file name inside the output directory when the model key
      holds no '/'. */
  lemma OutputPathSpec(outputDir: string, modelKey: string, pages: seq<nat>)
    requires '/' !in modelKey
    ensures '/' !in OutputName(modelKey, pages)
    ensures Basename(OutputPath(outputDir, modelKey, pages)) == OutputName(modelKey, pages)
    ensures outputDir != [] && outputDir[|outputDir| - 1] != '/' ==>
      Dirname(OutputPath(outputDir, modelKey, pages)) == outputDir
  {
    var padded := PaddedPages(pages);
    forall k | 0 <= k < |pages| ensures '/' !in padded[k] {
      Pad2Shape(pages[k]);
    }
    NoCharInJoin(padded, "_", '/');
    var name := OutputName(modelKey, pages);
    assert '/' !in name;
    BasenameOfJoin(outputDir, name);
    if outputDir != [] && outputDir[|outputDir| - 1] != '/' {
      DirnameOfJoin(outputDir, name);
    }
  }

  /** A character that occurs in neither the pieces nor the separator is not in the join. */
  lemma {:induction false} NoCharInJoin(parts: seq<string>, sep: string, c: char)
    requires c !in sep && forall k :: 0 <= k < |parts| ==> c !in parts[k]
    ensures c !in Join(parts, sep)
  {
    if |parts| > 1 {
      NoCharInJoin(parts[1..], sep, c);
    }
  }

  /** The names of the docstring's first group with the default model. */
  lemma OutputNameExample()
    ensures OutputName("25fl", [2, 3, 4, 5]) == "ocr_25fl_pages_02_03_04_05.md"
  {
    PaddedExample();
    JoinPaddedExample();
  }

  lemma PaddedExample()
    ensures PaddedPages([2, 3, 4, 5]) == ["02", "03", "04", "05"]
  {
    assert Pad2(2) == "02" && Pad2(3) == "03" && Pad2(4) == "04" && Pad2(5) == "05";
  }

  lemma JoinPaddedExample()
    ensures Join(["02", "03", "04", "05"], "_") == "02_03_04_05"
  {
    assert Join(["04", "05"], "_") == "04_05";
    assert Join(["03", "04", "05"], "_") == "03_04_05";
  }

  /** The prompt names exactly the pages, in transcription order: between the brackets after
      the fixed text, the ','-separated fields read back with int() as the pages. */
  lemma UserPromptPages(pages: seq<nat>)
    ensures |UserPrompt(pages)| >= |UserPromptPrefix| + 2
    ensures UserPrompt(pages)[..|UserPromptPrefix|] == UserPromptPrefix
    ensures pages == [] ==> UserPrompt(pages) == UserPromptPrefix + "[]"
    ensures pages != [] ==> |UserPrompt(pages)| > |UserPromptPrefix| + 2
    ensures pages != [] ==>
      |Split(UserPrompt(pages)[|UserPromptPrefix| + 1..|UserPrompt(pages)| - 1], ',')| == |pages|
    ensures pages != [] ==> forall k :: 0 <= k < |pages| ==>
      ParseInt(Split(UserPrompt(pages)[|UserPromptPrefix| + 1..|UserPrompt(pages)| - 1], ',')[k]) == Some(pages[k])
  {
    var r := ListRepr(pages);
    var u := UserPrompt(pages);
    assert u[|UserPromptPrefix|..] == r;
    assert u[|UserPromptPrefix| + 1..|u| - 1] == r[1..|r| - 1];
    if pages != [] {
      ListReprFields(pages);
      NonEmptyJoin(Decimals(pages), ", ");
    }
  }

  /** Different page lists give different prompts, so the prompt fixes the order in which the
      pages are transcribed. */
  lemma UserPromptInjective(p: seq<nat>, q: seq<nat>)
    ensures UserPrompt(p) == UserPrompt(q) <==> p == q
  {
    if UserPrompt(p) == UserPrompt(q) {
      UserPromptPages(p);
      UserPromptPages(q);
      PromptDetermines(UserPrompt(p), p, q);
    }
  }

  /** A prompt that reads back both as p and as q has p == q. */
  lemma PromptDetermines(u: string, p: seq<nat>, q: seq<nat>)
    requires |u| >= |UserPromptPrefix| + 2
    requires p == [] <==> u == UserPromptPrefix + "[]"
    requires q == [] <==> u == UserPromptPrefix + "[]"
    requires p != [] ==> |Split(u[|UserPromptPrefix| + 1..|u| - 1], ',')| == |p|
    requires q != [] ==> |Split(u[|UserPromptPrefix| + 1..|u| - 1], ',')| == |q|
    requires p != [] ==> forall k :: 0 <= k < |p| ==> ParseInt(Split(u[|UserPromptPrefix| + 1..|u| - 1], ',')[k]) == Some(p[k])
    requires q != [] ==> forall k :: 0 <= k < |q| ==> ParseInt(Split(u[|UserPromptPrefix| + 1..|u| - 1], ',')[k]) == Some(q[k])
    ensures p == q
  {
    if p != [] {
      SameFields(p, q, Split(u[|UserPromptPrefix| + 1..|u| - 1], ','));
    }
  }

  /** Two page lists that both read back from the same fields are equal. */
  lemma SameFields(p: seq<nat>, q: seq<nat>, fields: seq<string>)
    requires |fields| == |p| && |fields| == |q|
    requires forall k :: 0 <= k < |p| ==> ParseInt(fields[k]) == Some(p[k])
    requires forall k :: 0 <= k < |q| ==> ParseInt(fields[k]) == Some(q[k])
    ensures p == q
  {
  }

  /** The prompt lists the pages the way Python prints a list. */
  lemma UserPromptExample()
    ensures UserPrompt([2, 3, 4]) == "Transcribe these letter pages, in the following order: [2, 3, 4]"
  {
    var xs: seq<nat> := [2, 3, 4];
    var ds := seq(|xs|, k requires 0 <= k < |xs| => Decimal(xs[k]));
    assert ds[0] == "2" && ds[1] == "3" && ds[2] == "4";
    assert ds == ["2", "3", "4"];
    assert ds[1..] == ["3", "4"];
    assert Join(ds[1..], ", ") == "3, 4";
  }
}
