/** photos/utils.py: file names, the allow-list, thumbnail size
    specifications and thumbnail paths. */
module PhotoUtils {
  import opened Wrappers
  import opened Text
  import opened Paths

  /** ALLOWED_EXTENSIONS in the settings. */
  const AllowedExtensions: seq<string> := ["zip", "bmp", "raw", "jpg", "jpeg", "png", "gif", "tiff"]

  /** The longest name friendly_filename returns. */
  const FriendlyNameLength := 200

  // ---------------------------------------------------------------- split_extension

  /** split_extension: the os.path.splitext cut, with the extension's dot
      dropped and the extension lower-cased. */
  function SplitExtension(filename: string): (r: (string, string))
    ensures |r.0| <= |filename| && r.0 == filename[..|r.0|]
    ensures r.0 == filename ==> r.1 == ""
    ensures r.0 != filename ==> filename[|r.0|] == '.' && r.1 == Lower(filename[|r.0| + 1..])
    ensures '.' !in r.1 && '/' !in r.1
  {
    var (root, ext) := SplitExt(filename);
    assert DropDot(ext) == [] || DropDot(ext) == filename[|root| + 1..];
    (root, Lower(DropDot(ext)))
  }

  /** The extension without its leading dot. */
  function DropDot(ext: string): string
  {
    if |ext| > 0 && ext[0] == '.' then ext[1..] else ext
  }

  /** ASCII lower-casing never makes or removes a '.' or a '/'. */
  lemma LowerKeepsPunctuation(c: char)
    ensures LowerChar(c) == '.' <==> c == '.'
    ensures LowerChar(c) == '/' <==> c == '/'
  {
  }

  lemma {:induction false} RFindLower(s: string, c: char)
    requires c == '.' || c == '/'
    ensures RFind(Lower(s), c) == RFind(s, c)
    decreases |s|
  {
    if |s| > 0 {
      LowerKeepsPunctuation(s[|s| - 1]);
      assert Lower(s)[..|s| - 1] == Lower(s[..|s| - 1]);
      RFindLower(s[..|s| - 1], c);
    }
  }

  /** Lower-casing a file name lower-cases both halves of its splitext cut. */
  lemma SplitExtLower(p: string)
    ensures SplitExt(Lower(p)) == (Lower(SplitExt(p).0), Lower(SplitExt(p).1))
  {
    var q := Lower(p);
    RFindLower(p, '.');
    RFindLower(p, '/');
    var sepIndex := RFind(p, '/');
    var dotIndex := RFind(p, '.');
    forall k | 0 <= k < |p|
      ensures q[k] != '.' <==> p[k] != '.'
    {
      LowerKeepsPunctuation(p[k]);
    }
    if dotIndex > sepIndex {
      assert HasNonDot(q, sepIndex + 1, dotIndex) <==> HasNonDot(p, sepIndex + 1, dotIndex);
      assert q[..dotIndex] == Lower(p[..dotIndex]);
      assert q[dotIndex..] == Lower(p[dotIndex..]);
    }
  }

  /** split_extension of `dir + stem + "." + ext`: the directory stays in the
      name, and the extension comes back without its dot, lower-cased. */
  lemma SplitExtensionOf(dir: string, stem: string, ext: string)
    requires dir == [] || dir[|dir| - 1] == '/'
    requires '/' !in stem && '/' !in ext && '.' !in ext
    requires exists k :: 0 <= k < |stem| && stem[k] != '.'
    ensures SplitExtension(dir + stem + "." + ext) == (dir + stem, Lower(ext))
  {
    SplitExtOf(dir, stem, ext);
    assert ("." + ext)[1..] == ext;
  }

  /** The examples in the documentation of split_extension. */
  lemma SplitExtensionExample1()
    ensures SplitExtension("awesome_filename.jpg") == ("awesome_filename", "jpg")
  {
    var stem, ext := "awesome_filename", "jpg";
    assert "" + stem + "." + ext == "awesome_filename.jpg";
    assert "" + stem == stem;
    assert stem[0] != '.';
    assert Lower(ext) == ext;
    SplitExtensionOf("", stem, ext);
  }

  lemma SplitExtensionExample2()
    ensures SplitExtension("path/awesome_filename.jpg") == ("path/awesome_filename", "jpg")
  {
    var dir, stem, ext := "path/", "awesome_filename", "jpg";
    assert dir + stem + "." + ext == "path/awesome_filename.jpg";
    assert dir + stem == "path/awesome_filename";
    assert stem[0] != '.';
    assert Lower(ext) == ext;
    SplitExtensionOf(dir, stem, ext);
  }

  // ---------------------------------------------------------------- friendly_filename

  /** The characters the first substitution of friendly_filename turns into
      spaces: slash, underscore, both brackets and the pound sign. */
  predicate IsBlanked(c: char)
  {
    c == '/' || c == '_' || c == '[' || c == ']' || c == '#'
  }

  /** No two neighbouring characters are both whitespace. */
  predicate NoDoubleSpace(s: string)
  {
    forall i :: 0 <= i < |s| - 1 ==> !(IsSpace(s[i]) && IsSpace(s[i + 1]))
  }

  /** The first substitution of friendly_filename: no blanked character
      survives, each one leaves a space where it stood, and every other
      character keeps its place. */
  function BlankOut(s: string): (r: string)
    ensures |r| == |s|
    ensures forall i :: 0 <= i < |r| ==> !IsBlanked(r[i])
    ensures forall i :: 0 <= i < |s| && IsBlanked(s[i]) ==> r[i] == ' '
    ensures forall i :: 0 <= i < |s| && !IsBlanked(s[i]) ==> r[i] == s[i]
  {
    seq(|s|, i requires 0 <= i < |s| => if IsBlanked(s[i]) then ' ' else s[i])
  }

  /** re.sub('\s{2,}', ' ', s): every run of two or more whitespace
      characters becomes one space; a lone whitespace character is kept as
      it is. */
  function CollapseSpaces(s: string): string
    decreases |s|
  {
    if |s| == 0 then []
    else
      var n := if IsSpace(s[0]) then LeadingSpaces(s) else 1;
      (if n >= 2 then " " else [s[0]]) + CollapseSpaces(s[n..])
  }

  /** The collapse never lengthens the text, and keeps it empty or
      non-empty and starting with whitespace or not. */
  lemma {:induction false} CollapseSpacesFront(s: string)
    ensures |CollapseSpaces(s)| <= |s|
    ensures |CollapseSpaces(s)| == 0 <==> |s| == 0
    ensures |s| > 0 ==> (IsSpace(CollapseSpaces(s)[0]) <==> IsSpace(s[0]))
    decreases |s|
  {
    if |s| > 0 {
      var n := if IsSpace(s[0]) then LeadingSpaces(s) else 1;
      CollapseSpacesFront(s[n..]);
    }
  }

  /** The collapse leaves no two neighbouring whitespace characters. */
  lemma {:induction false} CollapseSpacesNoDouble(s: string)
    ensures NoDoubleSpace(CollapseSpaces(s))
    decreases |s|
  {
    if |s| > 0 {
      var n := if IsSpace(s[0]) then LeadingSpaces(s) else 1;
      var head: string := if n >= 2 then " " else [s[0]];
      var rest := CollapseSpaces(s[n..]);
      CollapseSpacesNoDouble(s[n..]);
      CollapseSpacesFront(s[n..]);
      assert IsSpace(s[0]) && rest != [] ==> !IsSpace(rest[0]);
      var r := head + rest;
      assert r == CollapseSpaces(s);
      forall i | 0 <= i < |r| - 1
        ensures !(IsSpace(r[i]) && IsSpace(r[i + 1]))
      {
        if i > 0 {
          assert r[i] == rest[i - 1] && r[i + 1] == rest[i];
        }
      }
    }
  }

  /** The collapse adds nothing but spaces. */
  lemma {:induction false} CollapseSpacesChars(s: string)
    ensures forall c :: c in CollapseSpaces(s) ==> c in s || c == ' '
    decreases |s|
  {
    if |s| > 0 {
      var n := if IsSpace(s[0]) then LeadingSpaces(s) else 1;
      CollapseSpacesChars(s[n..]);
      assert forall c :: c in s[n..] ==> c in s;
    }
  }

  /** Every infix of a string without neighbouring whitespace is one too. */
  lemma NoDoubleSpaceInfix(s: string, lo: nat, hi: nat)
    requires lo <= hi <= |s|
    requires NoDoubleSpace(s)
    ensures NoDoubleSpace(s[lo..hi])
  {
    var t := s[lo..hi];
    forall i | 0 <= i < |t| - 1
      ensures !(IsSpace(t[i]) && IsSpace(t[i + 1]))
    {
      assert t[i] == s[lo + i] && t[i + 1] == s[lo + i + 1];
    }
  }

  /** A character friendly_filename never returns: the path separators and
      the blanked characters. */
  predicate Plain(c: char)
  {
    c != '/' && c != '\\' && !IsBlanked(c)
  }

  predicate AllPlain(s: string)
  {
    forall i :: 0 <= i < |s| ==> Plain(s[i])
  }

  lemma AllPlainInfix(s: string, lo: nat, hi: nat)
    requires lo <= hi <= |s| && AllPlain(s)
    ensures AllPlain(s[lo..hi])
  {
    assert forall i :: 0 <= i < hi - lo ==> s[lo..hi][i] == s[lo + i];
  }

  /** The collapse adds nothing but spaces, which are plain. */
  lemma CollapseKeepsPlain(s: string)
    requires AllPlain(s)
    ensures AllPlain(CollapseSpaces(s))
  {
    var r := CollapseSpaces(s);
    CollapseSpacesChars(s);
    forall i | 0 <= i < |r|
      ensures Plain(r[i])
    {
      assert r[i] in r;
      if r[i] != ' ' {
        var j :| 0 <= j < |s| && s[j] == r[i];
      }
    }
  }

  /** The last path component, after both the last backslash and the last
      slash. */
  function BaseName(filename: string): (r: string)
    ensures forall i :: 0 <= i < |r| ==> r[i] != '/' && r[i] != '\\'
  {
    var outer := AfterLast(filename, '\\');
    var base := AfterLast(outer, '/');
    assert forall i :: 0 <= i < |base| ==> base[i] == outer[|outer| - |base| + i];
    base
  }

  /** Blanking a name without separators leaves only plain characters. */
  lemma BlankOutPlain(stem: string)
    requires forall i :: 0 <= i < |stem| ==> stem[i] != '/' && stem[i] != '\\'
    ensures AllPlain(BlankOut(stem))
  {
  }

  /** The blanking, collapsing, stripping and cutting of a stem. */
  function Tidy(stem: string): (r: string)
    requires forall i :: 0 <= i < |stem| ==> stem[i] != '/' && stem[i] != '\\'
    ensures |r| <= FriendlyNameLength
    ensures AllPlain(r)
    ensures r == [] || !IsSpace(r[0])
    ensures NoDoubleSpace(r)
  {
    var collapsed := CollapseSpaces(BlankOut(stem));
    CollapseSpacesFront(BlankOut(stem));
    CollapseSpacesNoDouble(BlankOut(stem));
    var stripped := Strip(collapsed);
    var lo := LeadingSpaces(collapsed);
    NoDoubleSpaceInfix(collapsed, lo, lo + |stripped|);
    BlankOutPlain(stem);
    CollapseKeepsPlain(BlankOut(stem));
    AllPlainInfix(collapsed, lo, lo + |stripped|);
    var r := Take(stripped, FriendlyNameLength);
    NoDoubleSpaceInfix(stripped, 0, |r|);
    AllPlainInfix(stripped, 0, |r|);
    r
  }

  /** friendly_filename: the last path component without its extension,
      with the blanked characters turned into spaces and whitespace runs
      collapsed, stripped and cut to 200 characters. */
  function FriendlyFilename(filename: string): (r: string)
    ensures |r| <= FriendlyNameLength
    ensures forall i :: 0 <= i < |r| ==> Plain(r[i])
    ensures r == [] || !IsSpace(r[0])
    ensures NoDoubleSpace(r)
  {
    var base := BaseName(filename);
    var stem := SplitExtension(base).0;
    assert forall i :: 0 <= i < |stem| ==> stem[i] == base[i];
    Tidy(stem)
  }

  /** A last separator and whatever precedes it: the name after the last
      slash, or after the last backslash, is all friendly_filename uses. */
  lemma FriendlyFilenameDropsDirectory(dir: string, sep: char, name: string)
    requires sep == '/' || sep == '\\'
    requires '/' !in name && '\\' !in name
    ensures FriendlyFilename(dir + [sep] + name) == FriendlyFilename(name)
  {
    BaseNameOf(dir, sep, name);
    BaseNameBare(name);
  }

  lemma BaseNameBare(name: string)
    requires '/' !in name && '\\' !in name
    ensures BaseName(name) == name
  {
    SplitNone(name, '\\');
    SplitNone(name, '/');
  }

  lemma BaseNameOf(dir: string, sep: char, name: string)
    requires sep == '/' || sep == '\\'
    requires '/' !in name && '\\' !in name
    ensures BaseName(dir + [sep] + name) == name
  {
    SplitNone(name, '/');
    if sep == '\\' {
      AfterLastOf(dir, '\\', name);
    } else {
      AfterLastAppend(dir + "/", name, '\\');
      AfterLastAppend(dir, "/", '\\');
      assert AfterLast(dir + [sep] + name, '\\') == AfterLast(dir, '\\') + [sep] + name;
      AfterLastOf(AfterLast(dir, '\\'), '/', name);
    }
  }

  lemma {:induction false} LeadingSpacesAppend(a: string, b: string)
    requires LeadingSpaces(a) < |a|
    ensures LeadingSpaces(a + b) == LeadingSpaces(a)
    decreases |a|
  {
    if IsSpace(a[0]) {
      assert (a + b)[1..] == a[1..] + b;
      LeadingSpacesAppend(a[1..], b);
    }
  }

  lemma {:induction false} LeadingSpacesAll(s: string)
    requires forall i :: 0 <= i < |s| ==> IsSpace(s[i])
    ensures LeadingSpaces(s) == |s|
    decreases |s|
  {
    if |s| > 0 {
      LeadingSpacesAll(s[1..]);
    }
  }

  /** A run of whitespace of length two or more collapses to one space. */
  lemma CollapseRun(s: string)
    requires |s| >= 2 && forall i :: 0 <= i < |s| ==> IsSpace(s[i])
    ensures CollapseSpaces(s) == " "
  {
    LeadingSpacesAll(s);
  }

  /** A run of two or more whitespace characters before non-whitespace
      becomes one space. */
  lemma CollapseRunThen(run: string, rest: string)
    requires |run| >= 2 && forall i :: 0 <= i < |run| ==> IsSpace(run[i])
    requires |rest| > 0 && !IsSpace(rest[0])
    ensures CollapseSpaces(run + rest) == " " + CollapseSpaces(rest)
  {
    LeadingSpacesAll(run);
    LeadingSpacesRun(run, rest);
    assert (run + rest)[|run|..] == rest;
  }

  lemma {:induction false} LeadingSpacesRun(run: string, rest: string)
    requires forall i :: 0 <= i < |run| ==> IsSpace(run[i])
    requires |rest| > 0 && !IsSpace(rest[0])
    ensures LeadingSpaces(run + rest) == |run|
    decreases |run|
  {
    if |run| > 0 {
      assert (run + rest)[1..] == run[1..] + rest;
      LeadingSpacesRun(run[1..], rest);
    } else {
      assert run + rest == rest;
    }
  }

  /** Text without neighbouring whitespace is left alone by the collapse. */
  lemma {:induction false} CollapseNoop(s: string)
    requires NoDoubleSpace(s)
    ensures CollapseSpaces(s) == s
    decreases |s|
  {
    if |s| > 0 {
      NoDoubleSpaceInfix(s, 1, |s|);
      CollapseNoop(s[1..]);
    }
  }

  /** Text that ends in non-whitespace and has no neighbouring whitespace
      passes through the collapse unchanged whatever follows it. */
  lemma {:induction false} CollapseKeepsPrefix(a: string, b: string)
    requires |a| > 0 && !IsSpace(a[|a| - 1]) && NoDoubleSpace(a)
    ensures CollapseSpaces(a + b) == a + CollapseSpaces(b)
    decreases |a|
  {
    var s := a + b;
    assert s[0] == a[0];
    if IsSpace(a[0]) {
      assert s[1] == a[1];
      assert LeadingSpaces(s[1..]) == 0;
    }
    if |a| == 1 {
      assert s[1..] == b;
    } else {
      assert s[1..] == a[1..] + b;
      NoDoubleSpaceInfix(a, 1, |a|);
      CollapseKeepsPrefix(a[1..], b);
      assert [a[0]] + (a[1..] + CollapseSpaces(b)) == a + CollapseSpaces(b);
    }
  }

  /** Tidy leaves a name alone that is already tidy. */
  lemma TidyNoop(stem: string)
    requires forall i :: 0 <= i < |stem| ==> !IsBlanked(stem[i]) && stem[i] != '/' && stem[i] != '\\'
    requires NoDoubleSpace(stem) && |stem| <= FriendlyNameLength
    requires stem == [] || (!IsSpace(stem[0]) && !IsSpace(stem[|stem| - 1]))
    ensures Tidy(stem) == stem
  {
    assert BlankOut(stem) == stem;
    CollapseNoop(stem);
  }

  /** For a bare `stem.ext`, friendly_filename tidies the stem. */
  lemma FriendlyFilenameOfBareName(stem: string, ext: string)
    requires '/' !in stem && '\\' !in stem && '/' !in ext && '\\' !in ext && '.' !in ext
    requires exists k :: 0 <= k < |stem| && stem[k] != '.'
    ensures FriendlyFilename(stem + "." + ext) == Tidy(stem)
  {
    BaseNameBare(stem + "." + ext);
    SplitExtensionBare(stem, ext);
  }

  /** split_extension of a bare `stem.ext` keeps the stem. */
  lemma SplitExtensionBare(stem: string, ext: string)
    requires '/' !in stem && '/' !in ext && '.' !in ext
    requires exists k :: 0 <= k < |stem| && stem[k] != '.'
    ensures SplitExtension(stem + "." + ext).0 == stem
    ensures SplitExtension(stem + "." + ext).1 == Lower(ext)
  {
    assert "" + stem + "." + ext == stem + "." + ext;
    SplitExtensionOf("", stem, ext);
  }

  /** Tidy's result, given what the collapse returns. */
  lemma TidyIs(stem: string, x: string)
    requires forall i :: 0 <= i < |stem| ==> stem[i] != '/' && stem[i] != '\\'
    requires CollapseSpaces(BlankOut(stem)) == x
    requires |x| <= FriendlyNameLength
    requires x == [] || (!IsSpace(x[0]) && !IsSpace(x[|x| - 1]))
    ensures Tidy(stem) == x
  {
  }

  /** Blanking works character by character. */
  lemma BlankOutAppend(a: string, b: string)
    ensures BlankOut(a + b) == BlankOut(a) + BlankOut(b)
  {
    assert forall i :: 0 <= i < |a + b| ==> BlankOut(a + b)[i] == (BlankOut(a) + BlankOut(b))[i];
  }

  /** A word: no blanked character, no neighbouring whitespace, and no
      whitespace at either end. */
  predicate Word(w: string)
  {
    && |w| > 0 && !IsSpace(w[0]) && !IsSpace(w[|w| - 1]) && NoDoubleSpace(w)
    && forall i :: 0 <= i < |w| ==> !IsBlanked(w[i])
  }

  /** A word comes out of the blanking and the collapse unchanged. */
  lemma SquashWord(w: string)
    requires Word(w)
    ensures CollapseSpaces(BlankOut(w)) == w
  {
    assert BlankOut(w) == w;
    CollapseNoop(w);
  }

  /** A word, then two or more blanked or whitespace characters, then
      more text: the separator becomes a single space. */
  lemma SquashJoin(a: string, run: string, rest: string)
    requires Word(a)
    requires |run| >= 2 && forall i :: 0 <= i < |run| ==> IsBlanked(run[i]) || IsSpace(run[i])
    requires |rest| > 0 && !IsSpace(rest[0]) && !IsBlanked(rest[0])
    ensures CollapseSpaces(BlankOut(a + (run + rest))) == a + (" " + CollapseSpaces(BlankOut(rest)))
  {
    BlankOutAppend(a, run + rest);
    BlankOutAppend(run, rest);
    assert BlankOut(a) == a;
    CollapseKeepsPrefix(a, BlankOut(run) + BlankOut(rest));
    CollapseRunThen(BlankOut(run), BlankOut(rest));
  }

  /** Two words around one blanked character: it becomes a single space. */
  lemma SquashSingle(a: string, c: char, rest: string)
    requires Word(a) && IsBlanked(c) && Word(rest)
    ensures CollapseSpaces(BlankOut(a + ([c] + rest))) == a + (" " + rest)
  {
    var s := a + (" " + rest);
    assert BlankOut(a + ([c] + rest)) == s;
    forall i | 0 <= i < |s| - 1
      ensures !(IsSpace(s[i]) && IsSpace(s[i + 1]))
    {
      if i < |a| - 1 {
        assert s[i] == a[i] && s[i + 1] == a[i + 1];
      } else if i > |a| {
        assert s[i] == rest[i - |a| - 1] && s[i + 1] == rest[i - |a|];
      }
    }
    CollapseNoop(s);
  }

  /** The stems and results of the examples meet what Tidy and TidyIs need. */
  lemma ExampleStems()
    ensures NoSeparator("awesome_filename") && Tidied("awesome filename")
    ensures NoSeparator("my photo #  03") && Tidied("my photo 03")
    ensures NoSeparator("messy__photo name  [3] 04") && Tidied("messy photo name 3 04")
  {
  }

  lemma ExampleFileName()
    ensures '/' !in "awesome_filename.jpg" && '\\' !in "awesome_filename.jpg"
    ensures "path/here" + ['/'] + "awesome_filename.jpg" == "path/here/awesome_filename.jpg"
  {
  }

  /** No slash and no backslash. */
  predicate NoSeparator(s: string)
  {
    forall i :: 0 <= i < |s| ==> s[i] != '/' && s[i] != '\\'
  }

  /** Short enough and without whitespace at either end. */
  predicate Tidied(x: string)
  {
    |x| <= FriendlyNameLength && (x == [] || (!IsSpace(x[0]) && !IsSpace(x[|x| - 1])))
  }

  lemma ExampleWords1()
    ensures Word("awesome") && Word("filename")
  {
  }

  lemma ExampleWords3()
    ensures Word("my photo") && Word("03")
  {
  }

  lemma ExampleWords4()
    ensures Word("messy")
    ensures Word("photo name")
  {
    ExampleWords4Name();
  }

  lemma ExampleWords4Name()
    ensures Word("photo name")
  {
  }

  lemma ExampleWords4Tail()
    ensures Word("3") && Word("04")
  {
  }

  /** The examples in the documentation of friendly_filename. */
  lemma FriendlyFilenameExample1()
    ensures FriendlyFilename("awesome_filename.jpg") == "awesome filename"
  {
    var stem := "awesome_filename";
    assert stem + "." + "jpg" == "awesome_filename.jpg";
    assert stem[0] != '.';
    FriendlyFilenameOfBareName(stem, "jpg");
    TidyExample1();
  }

  lemma TidyExample1()
    ensures Tidy("awesome_filename") == "awesome filename"
  {
    ExampleStems();
    SquashJoinExample1();
    TidyIs("awesome_filename", "awesome filename");
  }

  lemma SquashJoinExample1()
    ensures CollapseSpaces(BlankOut("awesome_filename")) == "awesome filename"
  {
    assert "awesome" + (['_'] + "filename") == "awesome_filename";
    assert "awesome" + (" " + "filename") == "awesome filename";
    ExampleWords1();
    SquashSingle("awesome", '_', "filename");
  }

  lemma FriendlyFilenameExample2()
    ensures FriendlyFilename("path/here/awesome_filename.jpg") == "awesome filename"
  {
    var file := "awesome_filename.jpg";
    ExampleFileName();
    FriendlyFilenameDropsDirectory("path/here", '/', file);
    FriendlyFilenameExample1();
  }

  lemma FriendlyFilenameExample3()
    ensures FriendlyFilename("my photo #  03.jpg") == "my photo 03"
  {
    var stem := "my photo #  03";
    assert stem + "." + "jpg" == "my photo #  03.jpg";
    assert stem[0] != '.';
    FriendlyFilenameOfBareName(stem, "jpg");
    TidyExample3();
  }

  lemma TidyExample3()
    ensures Tidy("my photo #  03") == "my photo 03"
  {
    ExampleStems();
    SquashExample3();
    TidyIs("my photo #  03", "my photo 03");
  }

  lemma SquashExample3()
    ensures CollapseSpaces(BlankOut("my photo #  03")) == "my photo 03"
  {
    assert "my photo" + (" #  " + "03") == "my photo #  03";
    assert "my photo" + (" " + "03") == "my photo 03";
    ExampleWords3();
    SquashJoin("my photo", " #  ", "03");
    SquashWord("03");
  }

  lemma FriendlyFilenameExample4()
    ensures FriendlyFilename("messy__photo name  [3] 04.jpg") == "messy photo name 3 04"
  {
    var stem := "messy__photo name  [3] 04";
    assert stem + "." + "jpg" == "messy__photo name  [3] 04.jpg";
    assert stem[0] != '.';
    FriendlyFilenameOfBareName(stem, "jpg");
    TidyExample4();
  }

  lemma TidyExample4()
    ensures Tidy("messy__photo name  [3] 04") == "messy photo name 3 04"
  {
    ExampleStems();
    SquashExample4();
    TidyIs("messy__photo name  [3] 04", "messy photo name 3 04");
  }

  lemma SquashExample4()
    ensures CollapseSpaces(BlankOut("messy__photo name  [3] 04")) == "messy photo name 3 04"
  {
    var rest := "photo name  [3] 04";
    assert "messy" + ("__" + rest) == "messy__photo name  [3] 04";
    assert "messy" + (" " + "photo name 3 04") == "messy photo name 3 04";
    ExampleWords4();
    SquashJoin("messy", "__", rest);
    SquashExample4Middle();
  }

  lemma SquashExample4Middle()
    ensures CollapseSpaces(BlankOut("photo name  [3] 04")) == "photo name 3 04"
  {
    var rest := "3] 04";
    assert "photo name" + ("  [" + rest) == "photo name  [3] 04";
    assert "photo name" + (" " + "3 04") == "photo name 3 04";
    ExampleWords4();
    ExampleWords4Tail();
    SquashJoin("photo name", "  [", rest);
    SquashExample4Tail();
  }

  lemma SquashExample4Tail()
    ensures CollapseSpaces(BlankOut("3] 04")) == "3 04"
  {
    assert "3" + ("] " + "04") == "3] 04";
    assert "3" + (" " + "04") == "3 04";
    ExampleWords4Tail();
    SquashJoin("3", "] ", "04");
    SquashWord("04");
  }

  // ---------------------------------------------------------------- file_allowed

  /** file_allowed: the lower-cased extension is on the allow-list. */
  function FileAllowed(filename: string): bool
  {
    SplitExtension(filename).1 in AllowedExtensions
  }

  /** Lower-casing a name does not change its split_extension extension. */
  lemma SplitExtensionLower(filename: string)
    ensures SplitExtension(Lower(filename)).1 == SplitExtension(filename).1
  {
    SplitExtLower(filename);
    var ext := SplitExt(filename).1;
    DropDotLower(ext);
    LowerIdempotent(DropDot(ext));
  }

  /** Lower-casing does not move the leading dot of an extension. */
  lemma DropDotLower(ext: string)
    ensures DropDot(Lower(ext)) == Lower(DropDot(ext))
  {
    if ext != [] {
      LowerKeepsPunctuation(ext[0]);
      assert Lower(ext)[1..] == Lower(ext[1..]);
    }
  }


  /** Upper or lower case in the name makes no difference. */
  lemma FileAllowedIgnoresCase(filename: string)
    ensures FileAllowed(Lower(filename)) == FileAllowed(filename)
  {
    SplitExtensionLower(filename);
  }

  /** A name `stem.ext` is allowed exactly when `ext`, lower-cased, is on
      the allow-list. */
  lemma FileAllowedOf(stem: string, ext: string)
    requires '/' !in stem && '/' !in ext && '.' !in ext
    requires exists k :: 0 <= k < |stem| && stem[k] != '.'
    ensures FileAllowed(stem + "." + ext) <==> Lower(ext) in AllowedExtensions
  {
    SplitExtensionBare(stem, ext);
  }

  /** A name with no dot has no extension and is refused. */
  lemma FileWithoutExtensionRefused(filename: string)
    requires '.' !in filename
    ensures !FileAllowed(filename)
  {
    SplitExtNoDot(filename);
  }

  lemma FileAllowedExample1()
    ensures FileAllowed("IMG_0001.JPG")
  {
    var stem, ext := "IMG_0001", "JPG";
    assert stem + "." + ext == "IMG_0001.JPG";
    assert stem[0] != '.';
    assert Lower(ext) == "jpg";
    FileAllowedOf(stem, ext);
  }

  lemma FileAllowedExample2()
    ensures !FileAllowed("notes.txt")
  {
    var stem, ext := "notes", "txt";
    assert stem + "." + ext == "notes.txt";
    assert stem[0] != '.';
    assert Lower(ext) == "txt";
    assert "txt" !in AllowedExtensions by {
      forall e | e in AllowedExtensions
        ensures e != "txt"
      {
        assert e[0] != 't' || |e| == 4;
      }
    }
    FileAllowedOf(stem, ext);
  }

  lemma FileAllowedExample3()
    ensures !FileAllowed("jpg")
  {
    FileWithoutExtensionRefused("jpg");
  }

  // ---------------------------------------------------------------- parse_size

  /** How a thumbnail is cut from the photo. */
  datatype Method = Fit | Thumb

  /** A parsed size specification such as 800x600-fit. */
  datatype Size = Size(width: int, height: int, mode: Method)

  /** The AttributeError messages of parse_size: the shape is wrong, the
      method is unknown (the message names it), or a dimension is not
      positive. */
  datatype SizeError = MalformedSize | UnknownMethod(name: string) | NonPositiveSize

  function MethodName(m: Method): string
  {
    match m
    case Fit => "fit"
    case Thumb => "thumb"
  }

  function MethodOf(name: string): (r: Option<Method>)
    ensures r.Some? <==> name == "fit" || name == "thumb"
    ensures r.Some? ==> MethodName(r.value) == name
  {
    if name == "fit" then Some(Fit)
    else if name == "thumb" then Some(Thumb)
    else None
  }

  /** [int(x) for x in pieces]: None when any piece is not an integer. */
  function ParseInts(pieces: seq<string>): (r: Option<seq<int>>)
    ensures r.Some? <==> forall i :: 0 <= i < |pieces| ==> ParseInt(pieces[i]).Some?
    ensures r.Some? ==> (|r.value| == |pieces|
      && forall i :: 0 <= i < |pieces| ==> r.value[i] == ParseInt(pieces[i]).value)
  {
    if |pieces| == 0 then Some([])
    else
      var head := ParseInt(pieces[0]);
      var rest := ParseInts(pieces[1..]);
      if head.None? || rest.None? then None
      else Some([head.value] + rest.value)
  }

  /** parse_size: `WxH-method` with method fit or thumb and two positive
      integers. */
  function ParseSize(spec: string): (r: Result<Size, SizeError>)
    ensures r.Ok? ==> r.value.width > 0 && r.value.height > 0
    ensures r.Err? && r.error.UnknownMethod? ==>
      r.error.name != "fit" && r.error.name != "thumb"
  {
    var parts := Split(spec, '-');
    if |parts| != 2 then Err(MalformedSize)
    else
      var methodName := parts[1];
      match MethodOf(methodName)
      case None => Err(UnknownMethod(methodName))
      case Some(m) => ParseDimensions(parts[0], m)
  }

  /** The part of parse_size after the method is known: the numbers. */
  function ParseDimensions(dims: string, m: Method): (r: Result<Size, SizeError>)
    ensures r.Ok? ==> r.value.width > 0 && r.value.height > 0 && r.value.mode == m
    ensures r.Err? ==> r.error == MalformedSize || r.error == NonPositiveSize
  {
    var ints := ParseInts(Split(dims, 'x'));
    if ints.None? || |ints.value| != 2 then Err(MalformedSize)
    else if ints.value[0] <= 0 || ints.value[1] <= 0 then Err(NonPositiveSize)
    else Ok(Size(ints.value[0], ints.value[1], m))
  }


  /** The canonical text of a size: `WxH-method`. */
  function FormatSize(width: nat, height: nat, m: Method): string
  {
    NatToString(width) + "x" + NatToString(height) + "-" + MethodName(m)
  }

  lemma DigitsAvoid(s: string, c: char)
    requires AllDigits(s) && !IsDigit(c)
    ensures c !in s
  {
  }

  /** The canonical text splits at its one '-' into the size part and the
      method name. */
  lemma FormatSizeSplit(width: nat, height: nat, m: Method)
    ensures Split(FormatSize(width, height, m), '-')
      == [NatToString(width) + "x" + NatToString(height), MethodName(m)]
  {
    var w := NatToString(width);
    var h := NatToString(height);
    DigitsAvoid(w, '-');
    DigitsAvoid(h, '-');
    var dims := w + "x" + h;
    assert '-' !in dims;
    SplitAround(dims, '-', MethodName(m));
    SplitNone(MethodName(m), '-');
  }

  /** The size part splits at its one 'x' into the two numbers. */
  lemma DimensionsSplit(w: string, h: string)
    requires AllDigits(w) && AllDigits(h)
    ensures Split(w + "x" + h, 'x') == [w, h]
  {
    DigitsAvoid(w, 'x');
    DigitsAvoid(h, 'x');
    SplitAround(w, 'x', h);
    SplitNone(h, 'x');
  }

  /** Parsing the canonical text of a size gives that size back. */
  lemma ParseFormatSize(width: nat, height: nat, m: Method)
    requires width > 0 && height > 0
    ensures ParseSize(FormatSize(width, height, m)) == Ok(Size(width, height, m))
  {
    var w := NatToString(width);
    var h := NatToString(height);
    FormatSizeSplit(width, height, m);
    DimensionsSplit(w, h);
    ParseIntOfNat(width);
    ParseIntOfNat(height);
    ParseIntsPair(w, h);
  }

  /** Two strings that both hold integers parse to the pair of them. */
  lemma ParseIntsPair(a: string, b: string)
    requires ParseInt(a).Some? && ParseInt(b).Some?
    ensures ParseInts([a, b]) == Some([ParseInt(a).value, ParseInt(b).value])
  {
    var pieces := [a, b];
    assert pieces[0] == a && pieces[1] == b;
    var r := ParseInts(pieces);
    assert r.Some?;
    assert r.value == [ParseInt(a).value, ParseInt(b).value];
  }

  /** Every size parse_size accepts is read off its text: the text is a
      size part, the only '-' and the method's name, and the size part is
      two pieces around an 'x' that int() reads as the width and the
      height. */
  lemma ParseSizeMethod(spec: string)
    requires ParseSize(spec).Ok?
    ensures Split(spec, '-') == [Split(spec, '-')[0], MethodName(ParseSize(spec).value.mode)]
    ensures ParseInts(Split(Split(spec, '-')[0], 'x'))
            == Some([ParseSize(spec).value.width, ParseSize(spec).value.height])
  {
    var ints := ParseInts(Split(Split(spec, '-')[0], 'x'));
    assert ints.Some? && |ints.value| == 2;
    assert ints.value == [ints.value[0], ints.value[1]];
  }

  /** The size part holds no '-', so no dimension can be negative: the
      "greater than 0" error is only reached by a zero. */
  lemma NonPositiveMeansZero(spec: string)
    requires ParseSize(spec) == Err(NonPositiveSize)
    ensures var ints := ParseInts(Split(Split(spec, '-')[0], 'x')).value;
      ints[0] == 0 || ints[1] == 0
  {
    var parts := Split(spec, '-');
    var pieces := Split(parts[0], 'x');
    SplitNoSeparator(spec, '-');
    assert '-' !in parts[0];
    forall i | 0 <= i < |pieces|
      ensures ParseInt(pieces[i]).Some? ==> ParseInt(pieces[i]).value >= 0
    {
      NoMinusNonNegative(parts[0], pieces, i);
    }
  }

  /** A piece of a string without '-' never parses to a negative number. */
  lemma NoMinusNonNegative(dims: string, pieces: seq<string>, i: nat)
    requires '-' !in dims && pieces == Split(dims, 'x') && i < |pieces|
    ensures ParseInt(pieces[i]).Some? ==> ParseInt(pieces[i]).value >= 0
  {
    SplitPiecesAvoid(dims, 'x', '-');
    var t := Strip(pieces[i]);
    assert '-' !in t;
  }


  /** A specification with exactly one '-' splits around it. */
  lemma SplitAtDash(dims: string, name: string)
    requires '-' !in dims && '-' !in name
    ensures Split(dims + "-" + name, '-') == [dims, name]
  {
    SplitAround(dims, '-', name);
    SplitNone(name, '-');
  }

  /** The first error exit: without a '-' there is no method. */
  lemma ParseSizeWithoutDash(spec: string)
    requires '-' !in spec
    ensures ParseSize(spec) == Err(MalformedSize)
  {
    SplitNone(spec, '-');
  }

  /** The first error exit again: more than one '-'. */
  lemma ParseSizeTwoDashes(a: string, b: string, c: string)
    requires '-' !in a && '-' !in b
    ensures ParseSize(a + "-" + b + "-" + c) == Err(MalformedSize)
  {
    assert a + "-" + b + "-" + c == a + "-" + (b + "-" + c);
    SplitAround(a, '-', b + "-" + c);
    SplitAround(b, '-', c);
  }

  /** The second error exit: a method other than fit or thumb, which the
      error names. */
  lemma ParseSizeUnknownMethod(dims: string, name: string)
    requires '-' !in dims && '-' !in name
    requires name != "fit" && name != "thumb"
    ensures ParseSize(dims + "-" + name) == Err(UnknownMethod(name))
  {
    SplitAtDash(dims, name);
  }

  /** The third error exit: a piece of the size part that int() refuses. */
  lemma ParseSizeNotNumber(dims: string, m: Method, i: nat)
    requires '-' !in dims
    requires i < |Split(dims, 'x')| && ParseInt(Split(dims, 'x')[i]).None?
    ensures ParseSize(dims + "-" + MethodName(m)) == Err(MalformedSize)
  {
    SplitAtDash(dims, MethodName(m));
  }

  /** The fourth error exit: three numbers where two belong. */
  lemma ParseSizeThreeNumbers(a: nat, b: nat, c: nat, m: Method)
    ensures ParseSize(NatToString(a) + "x" + NatToString(b) + "x" + NatToString(c) + "-" + MethodName(m))
      == Err(MalformedSize)
  {
    var x, y, z := NatToString(a), NatToString(b), NatToString(c);
    ThreeNumbersDimensions(a, b, c, m);
    ParseSizeOfDimensions(x + "x" + y + "x" + z, m);
  }

  /** With the method known, the size part alone decides the outcome. */
  lemma ParseSizeOfDimensions(dims: string, m: Method)
    requires '-' !in dims
    ensures ParseSize(dims + "-" + MethodName(m)) == ParseDimensions(dims, m)
  {
    SplitAtDash(dims, MethodName(m));
  }

  lemma ThreeNumbersDimensions(a: nat, b: nat, c: nat, m: Method)
    ensures '-' !in NatToString(a) + "x" + NatToString(b) + "x" + NatToString(c)
    ensures ParseDimensions(NatToString(a) + "x" + NatToString(b) + "x" + NatToString(c), m)
      == Err(MalformedSize)
  {
    var x, y, z := NatToString(a), NatToString(b), NatToString(c);
    ThreeNumbersSplit(x, y, z);
    ThreeNumbersParse(a, b, c);
  }

  lemma ThreeNumbersParse(a: nat, b: nat, c: nat)
    ensures var r := ParseInts([NatToString(a), NatToString(b), NatToString(c)]);
      r.Some? && |r.value| == 3
  {
    var x, y, z := NatToString(a), NatToString(b), NatToString(c);
    var pieces := [x, y, z];
    ParseIntOfNat(a);
    ParseIntOfNat(b);
    ParseIntOfNat(c);
    ParseIntsPair(y, z);
    assert pieces[0] == x && pieces[1..] == [y, z];
  }

  /** Three numbers joined by 'x' split back into the three. */
  lemma ThreeNumbersSplit(x: string, y: string, z: string)
    requires AllDigits(x) && AllDigits(y) && AllDigits(z)
    ensures '-' !in x + "x" + y + "x" + z
    ensures Split(x + "x" + y + "x" + z, 'x') == [x, y, z]
  {
    DigitsAvoid(x, '-');
    DigitsAvoid(y, '-');
    DigitsAvoid(z, '-');
    DigitsAvoid(x, 'x');
    DigitsAvoid(y, 'x');
    DigitsAvoid(z, 'x');
    assert x + "x" + y + "x" + z == x + ['x'] + (y + ['x'] + z);
    SplitAround(x, 'x', y + ['x'] + z);
    DimensionsSplit(y, z);
  }

  /** The fifth error exit: a zero width or height. */
  lemma ParseSizeZero(width: nat, height: nat, m: Method)
    requires width == 0 || height == 0
    ensures ParseSize(FormatSize(width, height, m)) == Err(NonPositiveSize)
  {
    var w := NatToString(width);
    var h := NatToString(height);
    FormatSizeSplit(width, height, m);
    DimensionsSplit(w, h);
    ParseIntOfNat(width);
    ParseIntOfNat(height);
    ParseIntsPair(w, h);
  }

  /** Examples of the first two error exits. */
  lemma ParseSizeErrorExamples()
    ensures ParseSize("800x600") == Err(MalformedSize)
    ensures ParseSize("800-600-fit") == Err(MalformedSize)
    ensures ParseSize("800x600-crop") == Err(UnknownMethod("crop"))
  {
    ParseSizeWithoutDash("800x600");
    assert "800" + "-" + "600" + "-" + "fit" == "800-600-fit";
    ParseSizeTwoDashes("800", "600", "fit");
    assert "800x600" + "-" + "crop" == "800x600-crop";
    ParseSizeUnknownMethod("800x600", "crop");
  }

  // ---------------------------------------------------------------- get_thumbnail_path

  /** get_thumbnail_path: `<dir>/thumbnails/<name>-<key><ext>` for the file
      `<dir>/<name><ext>`. */
  function ThumbnailPath(filename: string, key: string): string
  {
    var (root, extension) := SplitExt(filename);
    var (path, name) := PathSplit(root);
    PathJoin(PathJoin(path, "thumbnails"), name + "-" + key + extension)
  }

  /** The thumbnail of `dir/name.ext` for key k is `dir/thumbnails/name-k.ext`. */
  lemma ThumbnailPathOf(dir: string, name: string, ext: string, key: string)
    requires dir != [] && dir[|dir| - 1] != '/'
    requires '/' !in name && '/' !in ext && '.' !in ext
    requires exists k :: 0 <= k < |name| && name[k] != '.'
    ensures ThumbnailPath(dir + "/" + name + "." + ext, key)
      == dir + "/" + "thumbnails" + "/" + (name + "-" + key + ("." + ext))
  {
    SplitExtOf(dir + "/", name, ext);
    PathSplitOf(dir, name);
    var file := name + "-" + key + ("." + ext);
    var k :| 0 <= k < |name| && name[k] != '.';
    assert file[0] == name[0];
    assert "thumbnails"[0] != '/';
    var t := dir + "/" + "thumbnails";
    assert t[|t| - 1] == 's';
  }

  /** Different keys give the same photo different thumbnail files. */
  lemma ThumbnailPathInjective(filename: string, key1: string, key2: string)
    requires ThumbnailPath(filename, key1) == ThumbnailPath(filename, key2)
    ensures key1 == key2
  {
    var (root, extension) := SplitExt(filename);
    var (path, name) := PathSplit(root);
    var dir := PathJoin(path, "thumbnails");
    var f1 := name + "-" + key1 + extension;
    var f2 := name + "-" + key2 + extension;
    assert f1[|name|] == '-' && f2[|name|] == '-';
    var prefix := if dir == [] || dir[|dir| - 1] == '/' then dir else dir + "/";
    assert ThumbnailPath(filename, key1) == prefix + f1;
    assert ThumbnailPath(filename, key2) == prefix + f2;
    assert f1 == (prefix + f1)[|prefix|..];
    assert f2 == (prefix + f2)[|prefix|..];
    assert key1 == f1[|name| + 1..|f1| - |extension|];
    assert key2 == f2[|name| + 1..|f2| - |extension|];
  }

  /** The example in the documentation of get_thumbnail_path, for any
      name the upload gave the photo. */
  lemma ThumbnailPathExample(name: string)
    requires name != [] && '/' !in name && '.' !in name
    ensures ThumbnailPath("photos/" + name + ".jpg", "800x600-thumb")
      == "photos/thumbnails/" + name + "-800x600-thumb.jpg"
  {
    var dir, ext, key := "photos", "jpg", "800x600-thumb";
    assert dir + "/" + name + "." + ext == "photos/" + name + ".jpg";
    assert dir + "/" + "thumbnails" + "/" + (name + "-" + key + ("." + ext))
      == "photos/thumbnails/" + name + "-800x600-thumb.jpg";
    assert name[0] != '.';
    ThumbnailPathOf(dir, name, ext, key);
  }

  // ---------------------------------------------------------------- generate_thumbnail

  /** generate_thumbnail(image_field, size) without the pixel work: a size
      parse_size refuses raises before anything is written; otherwise the
      thumbnail is stored under the thumbnail path of the image's name. */
  function GenerateThumbnail(imageName: string, size: string): (r: Result<string, SizeError>)
    ensures r.Ok? <==> ParseSize(size).Ok?
    ensures r.Err? ==> r.error == ParseSize(size).error
  {
    var parsed := ParseSize(size);
    if parsed.Err? then Err(parsed.error) else Ok(ThumbnailPath(imageName, size))
  }

  /** Different sizes of one image never share a thumbnail file. */
  lemma GenerateThumbnailInjective(imageName: string, size1: string, size2: string)
    requires GenerateThumbnail(imageName, size1).Ok? && GenerateThumbnail(imageName, size2).Ok?
    requires GenerateThumbnail(imageName, size1) == GenerateThumbnail(imageName, size2)
    ensures size1 == size2
  {
    ThumbnailPathInjective(imageName, size1, size2);
  }

  /** The size the upload asks for, 200x200-fit, always parses. */
  lemma UploadSizeParses()
    ensures ParseSize("200x200-fit") == Ok(Size(200, 200, Fit))
  {
    UploadSizeText();
    ParseFormatSize(200, 200, Fit);
  }

  lemma UploadSizeText()
    ensures FormatSize(200, 200, Fit) == "200x200-fit"
  {
    var n := NatToString(200);
    assert n == "200";
    assert n + "x" + n + "-" + "fit" == "200x200-fit";
  }
}
