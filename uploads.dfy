/** The upload-path builder for stored files: a folder named after the
    model's application, and a file name made of a random UUID and the
    original extension. The UUID is a parameter of the model. */
module Uploads {
  import opened Text
  import opened Paths

  /** A version-4 UUID as str(uuid4()) prints it: five groups of lower-case
      hexadecimal digits, 8-4-4-4-12 long, joined by '-'. */
  datatype Uuid = Uuid(g1: string, g2: string, g3: string, g4: string, g5: string)

  predicate IsHexDigit(c: char)
  {
    '0' <= c <= '9' || 'a' <= c <= 'f'
  }

  predicate AllHex(s: string)
  {
    forall i :: 0 <= i < |s| ==> IsHexDigit(s[i])
  }

  predicate ValidUuid(u: Uuid)
  {
    |u.g1| == 8 && |u.g2| == 4 && |u.g3| == 4 && |u.g4| == 4 && |u.g5| == 12
    && AllHex(u.g1) && AllHex(u.g2) && AllHex(u.g3) && AllHex(u.g4) && AllHex(u.g5)
  }

  /** str(u) */
  function UuidText(u: Uuid): string
  {
    u.g1 + "-" + u.g2 + "-" + u.g3 + "-" + u.g4 + "-" + u.g5
  }

  /** str(u).replace("-", ""): the token that makes the file name unique. */
  function Token(u: Uuid): string
  {
    RemoveChar(UuidText(u), '-')
  }

  /** get_unique_upload_path(instance, filename) for an instance of the
      application `appLabel` and the UUID `u` that uuid4() returned. */
  function UploadPath(appLabel: string, filename: string, u: Uuid): string
  {
    PathJoin(Lower(appLabel), Token(u) + Lower(SplitExt(filename).1))
  }

  /** The token is the 32 hexadecimal digits of the UUID, in order. */
  lemma TokenDigits(u: Uuid)
    requires ValidUuid(u)
    ensures Token(u) == u.g1 + u.g2 + u.g3 + u.g4 + u.g5
    ensures |Token(u)| == 32 && AllHex(Token(u))
  {
    var x2 := u.g1 + "-" + u.g2;
    var x3 := x2 + "-" + u.g3;
    var x4 := x3 + "-" + u.g4;
    assert UuidText(u) == x4 + "-" + u.g5;
    HexNoDash(u.g1);
    HexNoDash(u.g2);
    HexNoDash(u.g3);
    HexNoDash(u.g4);
    HexNoDash(u.g5);
    RemoveDash(x4, u.g5);
    RemoveDash(x3, u.g4);
    RemoveDash(x2, u.g3);
    RemoveDash(u.g1, u.g2);
    RemoveCharAbsent(u.g1, '-');
    AllHexConcat(u.g1, u.g2);
    AllHexConcat(u.g1 + u.g2, u.g3);
    AllHexConcat(u.g1 + u.g2 + u.g3, u.g4);
    AllHexConcat(u.g1 + u.g2 + u.g3 + u.g4, u.g5);
  }

  lemma HexNoDash(s: string)
    requires AllHex(s)
    ensures '-' !in s
  {
    forall i | 0 <= i < |s|
      ensures s[i] != '-'
    {
      assert IsHexDigit(s[i]);
    }
  }

  lemma AllHexConcat(a: string, b: string)
    requires AllHex(a) && AllHex(b)
    ensures AllHex(a + b)
  {
    forall i | 0 <= i < |a + b|
      ensures IsHexDigit((a + b)[i])
    {
      if i < |a| {
        assert (a + b)[i] == a[i];
      } else {
        assert (a + b)[i] == b[i - |a|];
      }
    }
  }

  /** Removing the dashes of `a + "-" + b` when `b` has none. */
  lemma RemoveDash(a: string, b: string)
    requires '-' !in b
    ensures RemoveChar(a + "-" + b, '-') == RemoveChar(a, '-') + b
  {
    var dash := "-";
    var ad := a + dash;
    assert a + "-" + b == ad + b;
    RemoveCharConcat(ad, b, '-');
    RemoveCharConcat(a, dash, '-');
    RemoveCharAbsent(b, '-');
    DashRemoved();
  }

  lemma DashRemoved()
    ensures RemoveChar("-", '-') == []
  {
  }

  /** Different UUIDs give different tokens, so different paths. */
  lemma TokenInjective(u: Uuid, v: Uuid)
    requires ValidUuid(u) && ValidUuid(v) && Token(u) == Token(v)
    ensures u == v
  {
    TokenDigits(u);
    TokenDigits(v);
    GroupsOf(u);
    GroupsOf(v);
  }

  /** The groups sit at fixed places in the token. */
  lemma GroupsOf(u: Uuid)
    requires ValidUuid(u)
    ensures var t := u.g1 + u.g2 + u.g3 + u.g4 + u.g5;
      t[..8] == u.g1 && t[8..12] == u.g2 && t[12..16] == u.g3 && t[16..20] == u.g4 && t[20..] == u.g5
  {
    var t1 := u.g1 + u.g2;
    var t2 := t1 + u.g3;
    var t3 := t2 + u.g4;
    var t := t3 + u.g5;
    assert t[..20] == t3;
    assert t3[..16] == t2;
    assert t2[..12] == t1;
  }

  /** A slash-free character stays slash-free under lower-casing. */
  lemma LowerNoSlash(s: string)
    requires '/' !in s
    ensures '/' !in Lower(s)
  {
    forall i | 0 <= i < |s|
      ensures Lower(s)[i] != '/'
    {
      assert s[i] != '/';
    }
  }

  /** The path is the lower-cased application label, a slash, the token
      and the original extension lower-cased (with its dot, or nothing when
      the name has no extension). */
  lemma UploadPathShape(appLabel: string, filename: string, u: Uuid)
    requires ValidUuid(u)
    requires appLabel != [] && '/' !in appLabel
    ensures var extension := Lower(SplitExt(filename).1);
      UploadPath(appLabel, filename, u) == Lower(appLabel) + "/" + Token(u) + extension
      && (extension == [] || (extension[0] == '.' && '/' !in extension))
  {
    TokenDigits(u);
    LowerNoSlash(appLabel);
    var extension := SplitExt(filename).1;
    assert Token(u)[0] != '/';
    assert Lower(appLabel)[|appLabel| - 1] != '/';
    LowerNoSlash(extension);
    if extension != [] {
      assert Lower(extension)[0] == LowerChar(extension[0]);
    }
  }

  /** The directory of the stored file is the lower-cased application
      label, and its name is the token followed by the extension. */
  lemma UploadPathSplit(appLabel: string, filename: string, u: Uuid)
    requires ValidUuid(u)
    requires appLabel != [] && '/' !in appLabel
    ensures PathSplit(UploadPath(appLabel, filename, u))
      == (Lower(appLabel), Token(u) + Lower(SplitExt(filename).1))
  {
    UploadPathShape(appLabel, filename, u);
    LowerNoSlash(appLabel);
    LowerNoSlash(SplitExt(filename).1);
    TokenDigits(u);
    var name := Token(u) + Lower(SplitExt(filename).1);
    assert '/' !in Token(u);
    assert '/' !in name;
    assert Lower(appLabel) + "/" + Token(u) + Lower(SplitExt(filename).1)
      == Lower(appLabel) + "/" + name;
    PathSplitOf(Lower(appLabel), name);
  }

  /** The original stem is discarded: names with the same extension give
      the same path for the same UUID, whatever their stems and folders. */
  lemma UploadPathIgnoresStem(appLabel: string, dir1: string, stem1: string, dir2: string, stem2: string,
                              ext: string, u: Uuid)
    requires dir1 == [] || dir1[|dir1| - 1] == '/'
    requires dir2 == [] || dir2[|dir2| - 1] == '/'
    requires '/' !in stem1 && '/' !in stem2 && '/' !in ext && '.' !in ext
    requires exists k :: 0 <= k < |stem1| && stem1[k] != '.'
    requires exists k :: 0 <= k < |stem2| && stem2[k] != '.'
    ensures UploadPath(appLabel, dir1 + stem1 + "." + ext, u)
      == UploadPath(appLabel, dir2 + stem2 + "." + ext, u)
      == PathJoin(Lower(appLabel), Token(u) + "." + Lower(ext))
  {
    SplitExtOf(dir1, stem1, ext);
    SplitExtOf(dir2, stem2, ext);
    UploadPathOfExtension(appLabel, dir1 + stem1 + "." + ext, ext, u);
    UploadPathOfExtension(appLabel, dir2 + stem2 + "." + ext, ext, u);
  }

  /** Only the extension of the uploaded name reaches the path. */
  lemma UploadPathOfExtension(appLabel: string, filename: string, ext: string, u: Uuid)
    requires SplitExt(filename).1 == "." + ext
    ensures UploadPath(appLabel, filename, u) == PathJoin(Lower(appLabel), Token(u) + "." + Lower(ext))
  {
    LowerDotted(ext);
    assert Token(u) + ("." + Lower(ext)) == Token(u) + "." + Lower(ext);
  }

  lemma LowerDotted(ext: string)
    ensures Lower("." + ext) == "." + Lower(ext)
  {
    LowerConcat(".", ext);
    assert Lower(".") == ".";
  }

  /** Two uploads with different UUIDs never share a path. */
  lemma UploadPathUnique(appLabel: string, filename: string, u: Uuid, v: Uuid)
    requires ValidUuid(u) && ValidUuid(v) && u != v
    requires appLabel != [] && '/' !in appLabel
    ensures UploadPath(appLabel, filename, u) != UploadPath(appLabel, filename, v)
  {
    UploadPathShape(appLabel, filename, u);
    UploadPathShape(appLabel, filename, v);
    TokenDigits(u);
    TokenDigits(v);
    var prefix := Lower(appLabel) + "/";
    var extension := Lower(SplitExt(filename).1);
    if UploadPath(appLabel, filename, u) == UploadPath(appLabel, filename, v) {
      var p := UploadPath(appLabel, filename, u);
      assert p == prefix + Token(u) + extension;
      assert p[|prefix|..|prefix| + 32] == Token(u);
      assert p == prefix + Token(v) + extension;
      assert p[|prefix|..|prefix| + 32] == Token(v);
      TokenInjective(u, v);
    }
  }

  /** A name without a dot has no extension: the file name is the bare token. */
  lemma UploadPathNoExtension(appLabel: string, filename: string, u: Uuid)
    requires ValidUuid(u)
    requires appLabel != [] && '/' !in appLabel
    requires '.' !in filename
    ensures UploadPath(appLabel, filename, u) == Lower(appLabel) + "/" + Token(u)
  {
    SplitExtNoDot(filename);
    UploadPathShape(appLabel, filename, u);
    assert Lower([]) == [];
  }

  /** The example in the function's documentation: a JPEG uploaded to the
      photos application lands in "photos/" under the token and ".jpg". */
  lemma UploadPathExample(u: Uuid)
    requires ValidUuid(u)
    ensures UploadPath("photos", "Holiday.JPG", u) == "photos/" + Token(u) + ".jpg"
  {
    ExampleName();
    ExampleLower();
    SplitExtOf("", "Holiday", "JPG");
    UploadPathOfExtension("photos", "Holiday.JPG", "JPG", u);
    TokenDigits(u);
    var t := Token(u);
    JoinUnder("photos", t + "." + "jpg");
    assert "photos" + "/" + (t + "." + "jpg") == "photos/" + t + ".jpg";
  }

  /** Joining a relative name under a folder puts one slash between them. */
  lemma JoinUnder(dir: string, name: string)
    requires dir != [] && dir[|dir| - 1] != '/'
    requires name != [] && name[0] != '/'
    ensures PathJoin(dir, name) == dir + "/" + name
  {
  }

  lemma ExampleName()
    ensures "Holiday.JPG" == "" + "Holiday" + "." + "JPG"
    ensures "Holiday"[0] != '.' && '/' !in "Holiday" && '/' !in "JPG" && '.' !in "JPG"
    ensures "photos" + "/" == "photos/" && "." + "jpg" == ".jpg"
  {
  }

  lemma ExampleLower()
    ensures Lower("photos") == "photos" && Lower("JPG") == "jpg"
  {
  }
}
