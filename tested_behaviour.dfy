/**
 * The concrete cases of the repository's test suite, stated against the
 * model. Each covered test method is restated by one member: a lemma, or a
 * method for the upload test, while the four prefix tests share one lemma.
 * The remaining lemmas are helpers that establish the literal facts those
 * restatements need. The directory fixtures are written out as the trees
 * the tests build.
 */
module TestedBehaviour {
  import opened Wrappers
  import opened PatternMatcher
  import opened FileCollector
  import opened PrefixResolver
  import opened Arguments
  import opened UploadDispatcher

  /** The tree built for the `get_files_matching_pattern` tests */
  const MATCHING_FIXTURE: Tree := [
    Entry("subdir", Directory),
    Entry("test_file1.txt", RegularFile),
    Entry("test_file2.txt", RegularFile),
    Entry("test_file.pdf", RegularFile),
    Entry("test_file.md", RegularFile),
    Entry("subdir/test_file.zip", RegularFile)
  ]

  /** The tree built for the `get_files_to_upload` tests */
  const UPLOAD_FIXTURE: Tree := [
    Entry("file1.txt", RegularFile),
    Entry("file2.dat", RegularFile),
    Entry("subdir", Directory),
    Entry("subdir/file3.txt", RegularFile),
    Entry("subdir/file4.dat", RegularFile)
  ]

  lemma ConstructUploadPrefixCases()
    ensures ConstructUploadPrefix("support", None) == "support"
    ensures ConstructUploadPrefix("", Some("test_output_path")) == "test_output_path"
    ensures ConstructUploadPrefix("", None) == ""
    ensures ConstructUploadPrefix("my-prefix", Some("test_output_path")) == "my-prefix"
  {
  }

  /** The client receives one request, with the file path first and the key last. */
  method UploadFileCase() returns (log: seq<UploadCall>)
    ensures log == [UploadCall("/path/to/file", "test-bucket", "path/to/key")]
    ensures Occurrences(log, UploadCall("/path/to/file", "test-bucket", "path/to/key")) == 1
  {
    var client := new RecordingClient();
    UploadFile(client, "test-bucket", "/path/to/file", "path/to/key");
    log := client.calls;
    OccurrencesAppend([], UploadCall("/path/to/file", "test-bucket", "path/to/key"), UploadCall("/path/to/file", "test-bucket", "path/to/key"));
  }

  lemma StripPaddedTokens()
    ensures Strip(" 1.txt ") == "1.txt"
    ensures Strip(" 2.txt ") == "2.txt"
  {
    assert " 1.txt " == " " + "1.txt" + " ";
    StripPadded(" ", "1.txt", " ");
    assert " 2.txt " == " " + "2.txt" + " ";
    StripPadded(" ", "2.txt", " ");
  }

  lemma SeparateArgumentsPlain()
    ensures SeparateArguments("1.txt,2.txt") == ["1.txt", "2.txt"]
  {
    assert Join(["1.txt", "2.txt"], COMMA) == "1.txt,2.txt";
    SeparateJoin(["1.txt", "2.txt"]);
  }

  lemma SeparateArgumentsEmptyString()
    ensures SeparateArguments("") == [""]
  {
  }

  /** The pieces of `"1.txt,,2.txt,"` between its commas */
  lemma ExtraCommasPieces()
    ensures Split("1.txt,,2.txt,", COMMA) == ["1.txt", "", "2.txt", ""]
  {
    var pieces := ["1.txt", "", "2.txt", ""];
    assert Join(pieces, COMMA) == "1.txt,,2.txt,";
    SplitJoin(pieces, COMMA);
  }

  /** Empty pieces between and after two clean tokens are dropped */
  lemma EmptyPiecesDropped(a: string, b: string)
    requires a != [] && IsStripped(a) && b != [] && IsStripped(b)
    ensures NonEmptyStripped([a, "", b, ""]) == [a, b]
  {
    NonEmptyStrippedKeeps([a, b]);
    var pieces := [a, "", b, ""];
    assert pieces[1..][1..] == [b, ""];
    assert NonEmptyStripped([""]) == [];
    assert NonEmptyStripped([b, ""]) == [b];
  }

  lemma SeparateArgumentsExtraCommas()
    ensures SeparateArguments("1.txt,,2.txt,") == ["1.txt", "2.txt"]
  {
    ExtraCommasPieces();
    EmptyPiecesDropped("1.txt", "2.txt");
  }

  /** The pieces of `" 1.txt , 2.txt "` between its commas */
  lemma SpacesPieces()
    ensures Split(" 1.txt , 2.txt ", COMMA) == [" 1.txt ", " 2.txt "]
  {
    var padded := [" 1.txt ", " 2.txt "];
    assert Join(padded, COMMA) == " 1.txt , 2.txt ";
    SplitJoin(padded, COMMA);
  }

  lemma SpacesTokens()
    ensures NonEmptyStripped([" 1.txt ", " 2.txt "]) == ["1.txt", "2.txt"]
  {
    var padded := [" 1.txt ", " 2.txt "];
    StripPaddedTokens();
    assert NonEmptyStripped(padded[1..]) == ["2.txt"];
  }

  lemma SeparateArgumentsSpaces()
    ensures SeparateArguments(" 1.txt , 2.txt ") == ["1.txt", "2.txt"]
  {
    SpacesPieces();
    SpacesTokens();
  }

  lemma NoExcludePatterns()
    ensures !IsExcluded("test_file.txt", [])
  {
  }

  /** `*.txt` matches the test file name */
  lemma TxtPatternMatches()
    ensures Matches("test_file.txt", "*.txt")
  {
    assert "*.txt" == [STAR] + ".txt";
    StarThenLiteral("test_file.txt", ".txt");
  }

  lemma ExcludePatternMatches()
    ensures IsExcluded("test_file.txt", ["*.txt"])
  {
    TxtPatternMatches();
  }

  lemma ExcludePatternDoesNotMatch()
    ensures !IsExcluded("test_file.txt", ["*.pdf"])
  {
    assert !Matches("test_file.txt", "*.pdf") by {
      assert "*.pdf" == [STAR] + ".pdf";
      StarThenLiteral("test_file.txt", ".pdf");
    }
  }

  lemma MultipleExcludePatterns()
    ensures IsExcluded("test_file.txt", ["*.pdf", "*.txt"])
  {
    TxtPatternMatches();
  }

  /** `*dir/` matches the directory part of the path */
  lemma DirPatternMatches()
    ensures Matches("subdir/", "*dir/")
  {
    assert "*dir/" == [STAR] + "dir/";
    StarThenLiteral("subdir/", "dir/");
  }

  /** The two halves of path and pattern match separately, hence together */
  lemma SubdirectoryHalvesMatch()
    ensures Matches("subdir/" + "test_file.txt", "*dir/" + "*.txt")
  {
    DirPatternMatches();
    TxtPatternMatches();
    MatchesConcat("subdir/", "*dir/", "test_file.txt", "*.txt");
  }

  /** `*` reaches across the directory separator. */
  lemma SubdirectoryPatternMatches()
    ensures Matches("subdir/test_file.txt", "*dir/*.txt")
  {
    SubdirectoryHalvesMatch();
    assert "subdir/" + "test_file.txt" == "subdir/test_file.txt";
    assert "*dir/" + "*.txt" == "*dir/*.txt";
  }

  lemma ExcludePatternWithSubdirectory()
    ensures IsExcluded("subdir/test_file.txt", ["*dir/*.txt"])
  {
    SubdirectoryPatternMatches();
  }

  // get_files_matching_pattern over the first fixture

  /** `*` matches every path: spelt as a string it is the one-wildcard pattern. */
  lemma StarMatches(path: string)
    ensures Matches(path, "*")
  {
    assert "*" == [STAR];
    StarMatchesEveryPath(path);
  }

  lemma FirstTextEndsTxt()
    ensures Matches("test_file1.txt", "*.txt")
  {
    assert "*.txt" == [STAR] + ".txt";
    StarThenLiteral("test_file1.txt", ".txt");
  }

  lemma SecondTextEndsTxt()
    ensures Matches("test_file2.txt", "*.txt")
  {
    assert "*.txt" == [STAR] + ".txt";
    StarThenLiteral("test_file2.txt", ".txt");
  }

  lemma PdfNotTxt()
    ensures !Matches("test_file.pdf", "*.txt")
  {
    assert "*.txt" == [STAR] + ".txt";
    StarThenLiteral("test_file.pdf", ".txt");
  }

  lemma PdfNotMd()
    ensures !Matches("test_file.pdf", "*.md")
  {
    assert "*.md" == [STAR] + ".md";
    StarThenLiteral("test_file.pdf", ".md");
  }

  lemma PdfNotZip()
    ensures !Matches("test_file.pdf", "*.zip")
  {
    assert "*.zip" == [STAR] + ".zip";
    StarThenLiteral("test_file.pdf", ".zip");
  }

  lemma MarkdownNotTxt()
    ensures !Matches("test_file.md", "*.txt")
  {
    assert "*.txt" == [STAR] + ".txt";
    StarThenLiteral("test_file.md", ".txt");
  }

  lemma MarkdownEndsMd()
    ensures Matches("test_file.md", "*.md")
  {
    assert "*.md" == [STAR] + ".md";
    StarThenLiteral("test_file.md", ".md");
  }

  lemma ZipNotTxt()
    ensures !Matches("subdir/test_file.zip", "*.txt")
  {
    assert "*.txt" == [STAR] + ".txt";
    StarThenLiteral("subdir/test_file.zip", ".txt");
  }

  lemma ZipEndsZip()
    ensures Matches("subdir/test_file.zip", "*.zip")
  {
    assert "*.zip" == [STAR] + ".zip";
    StarThenLiteral("subdir/test_file.zip", ".zip");
  }

  lemma ZipUnderSubdirHalves()
    ensures Matches("subdir/" + "test_file.zip", "subdir/" + "*.zip")
  {
    LiteralMatchesItselfOnly("subdir/", "subdir/");
    assert "*.zip" == [STAR] + ".zip";
    StarThenLiteral("test_file.zip", ".zip");
    MatchesConcat("subdir/", "subdir/", "test_file.zip", "*.zip");
  }

  lemma ZipUnderSubdir()
    ensures Matches("subdir/test_file.zip", "subdir/*.zip")
  {
    ZipUnderSubdirHalves();
    assert "subdir/" + "test_file.zip" == "subdir/test_file.zip";
    assert "subdir/" + "*.zip" == "subdir/*.zip";
  }

  // A path outside `subdir` fails the pattern `subdir/*.zip` on its first character.
  lemma OutsideSubdir(path: string)
    requires path != [] && path[0] != 's'
    ensures !Matches(path, "subdir/*.zip")
  {
    assert "subdir/*.zip"[0] == 's';
  }

  lemma TxtSelectionAt(i: int)
    requires 0 <= i < |MATCHING_FIXTURE|
    ensures Selects(MATCHING_FIXTURE[i], "*.txt", []) <==> i == 1 || i == 2
  {
    if i == 1 {
      FirstTextEndsTxt();
    } else if i == 2 {
      SecondTextEndsTxt();
    } else if i == 3 {
      PdfNotTxt();
    } else if i == 4 {
      MarkdownNotTxt();
    } else if i == 5 {
      ZipNotTxt();
    }
  }

  lemma TxtSelection()
    ensures forall i :: 0 <= i < |MATCHING_FIXTURE| ==>
      (Selects(MATCHING_FIXTURE[i], "*.txt", []) <==> i == 1 || i == 2)
  {
    forall i | 0 <= i < |MATCHING_FIXTURE|
      ensures Selects(MATCHING_FIXTURE[i], "*.txt", []) <==> i == 1 || i == 2
    {
      TxtSelectionAt(i);
    }
  }

  lemma FilesMatchingPatternCase()
    ensures MatchingFiles(MATCHING_FIXTURE, "*.txt", []) == {"test_file1.txt", "test_file2.txt"}
  {
    TxtSelection();
    MatchingFilesTwo(MATCHING_FIXTURE, "*.txt", [], 1, 2);
  }

  lemma FirstTextExcluded()
    ensures IsExcluded("test_file1.txt", ["*.txt", "*.md", "*.zip"])
  {
    FirstTextEndsTxt();
  }

  lemma SecondTextExcluded()
    ensures IsExcluded("test_file2.txt", ["*.txt", "*.md", "*.zip"])
  {
    SecondTextEndsTxt();
  }

  lemma PdfKept()
    ensures !IsExcluded("test_file.pdf", ["*.txt", "*.md", "*.zip"])
  {
    PdfNotTxt();
    PdfNotMd();
    PdfNotZip();
  }

  lemma MarkdownExcluded()
    ensures IsExcluded("test_file.md", ["*.txt", "*.md", "*.zip"])
  {
    MarkdownEndsMd();
  }

  lemma ZipExcluded()
    ensures IsExcluded("subdir/test_file.zip", ["*.txt", "*.md", "*.zip"])
  {
    ZipEndsZip();
  }

  lemma ExclusionSelectionAt(i: int)
    requires 0 <= i < |MATCHING_FIXTURE|
    ensures Selects(MATCHING_FIXTURE[i], "*", ["*.txt", "*.md", "*.zip"]) <==> i == 3
  {
    if i == 1 {
      FirstTextExcluded();
    } else if i == 2 {
      SecondTextExcluded();
    } else if i == 3 {
      StarMatches("test_file.pdf");
      PdfKept();
    } else if i == 4 {
      MarkdownExcluded();
    } else if i == 5 {
      ZipExcluded();
    }
  }

  lemma ExclusionSelection()
    ensures forall i :: 0 <= i < |MATCHING_FIXTURE| ==>
      (Selects(MATCHING_FIXTURE[i], "*", ["*.txt", "*.md", "*.zip"]) <==> i == 3)
  {
    forall i | 0 <= i < |MATCHING_FIXTURE|
      ensures Selects(MATCHING_FIXTURE[i], "*", ["*.txt", "*.md", "*.zip"]) <==> i == 3
    {
      ExclusionSelectionAt(i);
    }
  }

  lemma FilesMatchingPatternWithExclusionsCase()
    ensures MatchingFiles(MATCHING_FIXTURE, "*", ["*.txt", "*.md", "*.zip"]) == {"test_file.pdf"}
  {
    ExclusionSelection();
    MatchingFilesOne(MATCHING_FIXTURE, "*", ["*.txt", "*.md", "*.zip"], 3);
  }

  lemma SubdirectorySelectionAt(i: int)
    requires 0 <= i < |MATCHING_FIXTURE|
    ensures Selects(MATCHING_FIXTURE[i], "subdir/*.zip", []) <==> i == 5
  {
    if i == 5 {
      ZipUnderSubdir();
    } else if i != 0 {
      OutsideSubdir(MATCHING_FIXTURE[i].path);
    }
  }

  lemma SubdirectorySelection()
    ensures forall i :: 0 <= i < |MATCHING_FIXTURE| ==>
      (Selects(MATCHING_FIXTURE[i], "subdir/*.zip", []) <==> i == 5)
  {
    forall i | 0 <= i < |MATCHING_FIXTURE|
      ensures Selects(MATCHING_FIXTURE[i], "subdir/*.zip", []) <==> i == 5
    {
      SubdirectorySelectionAt(i);
    }
  }

  lemma FilesMatchingPatternWithSubdirectoryCase()
    ensures MatchingFiles(MATCHING_FIXTURE, "subdir/*.zip", []) == {"subdir/test_file.zip"}
  {
    SubdirectorySelection();
    MatchingFilesOne(MATCHING_FIXTURE, "subdir/*.zip", [], 5);
  }

  // get_files_to_upload over the second fixture; excludes given as '' iterate as no pattern at all

  lemma TopTextEndsTxt()
    ensures Matches("file1.txt", "*.txt")
  {
    assert "*.txt" == [STAR] + ".txt";
    StarThenLiteral("file1.txt", ".txt");
  }

  lemma TopDataNotTxt()
    ensures !Matches("file2.dat", "*.txt")
  {
    assert "*.txt" == [STAR] + ".txt";
    StarThenLiteral("file2.dat", ".txt");
  }

  lemma NestedTextEndsTxt()
    ensures Matches("subdir/file3.txt", "*.txt")
  {
    assert "*.txt" == [STAR] + ".txt";
    StarThenLiteral("subdir/file3.txt", ".txt");
  }

  lemma NestedDataNotTxt()
    ensures !Matches("subdir/file4.dat", "*.txt")
  {
    assert "*.txt" == [STAR] + ".txt";
    StarThenLiteral("subdir/file4.dat", ".txt");
  }

  lemma TopTextNotDat()
    ensures !Matches("file1.txt", "*.dat")
  {
    assert "*.dat" == [STAR] + ".dat";
    StarThenLiteral("file1.txt", ".dat");
  }

  lemma TopDataEndsDat()
    ensures Matches("file2.dat", "*.dat")
  {
    assert "*.dat" == [STAR] + ".dat";
    StarThenLiteral("file2.dat", ".dat");
  }

  lemma NestedTextNotDat()
    ensures !Matches("subdir/file3.txt", "*.dat")
  {
    assert "*.dat" == [STAR] + ".dat";
    StarThenLiteral("subdir/file3.txt", ".dat");
  }

  lemma NestedDataEndsDat()
    ensures Matches("subdir/file4.dat", "*.dat")
  {
    assert "*.dat" == [STAR] + ".dat";
    StarThenLiteral("subdir/file4.dat", ".dat");
  }

  lemma UploadFixtureFiles()
    ensures RegularFiles(UPLOAD_FIXTURE) == {"file1.txt", "file2.dat", "subdir/file3.txt", "subdir/file4.dat"}
  {
    var t := UPLOAD_FIXTURE;
    forall p | p in RegularFiles(t)
      ensures p in {"file1.txt", "file2.dat", "subdir/file3.txt", "subdir/file4.dat"}
    {
      var e :| e in t && e.kind == RegularFile && e.path == p;
      assert e != t[2];
    }
    assert t[0].path in RegularFiles(t);
    assert t[1].path in RegularFiles(t);
    assert t[3].path in RegularFiles(t);
    assert t[4].path in RegularFiles(t);
  }

  lemma AllFilesCase()
    ensures FilesToUpload(UPLOAD_FIXTURE, ["*"], [])
         == {"file1.txt", "file2.dat", "subdir/file3.txt", "subdir/file4.dat"}
  {
    assert ["*"] == [[STAR]];
    StarSelectsEveryFile(UPLOAD_FIXTURE, []);
    UploadFixtureFiles();
  }

  lemma TxtUploadSelection()
    ensures forall i :: 0 <= i < |UPLOAD_FIXTURE| ==>
      (Selects(UPLOAD_FIXTURE[i], "*.txt", []) <==> i == 0 || i == 3)
  {
    forall i | 0 <= i < |UPLOAD_FIXTURE|
      ensures Selects(UPLOAD_FIXTURE[i], "*.txt", []) <==> i == 0 || i == 3
    {
      if i == 0 {
        TopTextEndsTxt();
      } else if i == 1 {
        TopDataNotTxt();
      } else if i == 3 {
        NestedTextEndsTxt();
      } else if i == 4 {
        NestedDataNotTxt();
      }
    }
  }

  lemma TxtFilesCase()
    ensures FilesToUpload(UPLOAD_FIXTURE, ["*.txt"], []) == {"file1.txt", "subdir/file3.txt"}
  {
    TxtUploadSelection();
    SinglePatternUpload(UPLOAD_FIXTURE, "*.txt", []);
    MatchingFilesTwo(UPLOAD_FIXTURE, "*.txt", [], 0, 3);
  }

  // Any name directly after `subdir/` matches the pattern `subdir/*`, spelt as two halves.
  lemma UnderSubdirHalves(name: string)
    ensures Matches("subdir/" + name, "subdir/" + "*")
  {
    LiteralMatchesItselfOnly("subdir/", "subdir/");
    StarMatches(name);
    MatchesConcat("subdir/", "subdir/", name, "*");
  }

  lemma NestedFilesUnderSubdir()
    ensures Matches("subdir/file3.txt", "subdir/*") && Matches("subdir/file4.dat", "subdir/*")
  {
    UnderSubdirHalves("file3.txt");
    UnderSubdirHalves("file4.dat");
    assert "subdir/" + "file3.txt" == "subdir/file3.txt";
    assert "subdir/" + "file4.dat" == "subdir/file4.dat";
    assert "subdir/" + "*" == "subdir/*";
  }

  // A path outside `subdir` fails the pattern `subdir/*` on its first character.
  lemma OutsideSubdirAny(path: string)
    requires path != [] && path[0] != 's'
    ensures !Matches(path, "subdir/*")
  {
    assert "subdir/*"[0] == 's';
  }

  lemma DirUploadSelection()
    ensures forall i :: 0 <= i < |UPLOAD_FIXTURE| ==>
      (Selects(UPLOAD_FIXTURE[i], "subdir/*", []) <==> i == 3 || i == 4)
  {
    forall i | 0 <= i < |UPLOAD_FIXTURE|
      ensures Selects(UPLOAD_FIXTURE[i], "subdir/*", []) <==> i == 3 || i == 4
    {
      if i == 3 || i == 4 {
        NestedFilesUnderSubdir();
      } else if i != 2 {
        OutsideSubdirAny(UPLOAD_FIXTURE[i].path);
      }
    }
  }

  lemma DirCase()
    ensures FilesToUpload(UPLOAD_FIXTURE, ["subdir/*"], []) == {"subdir/file3.txt", "subdir/file4.dat"}
  {
    DirUploadSelection();
    SinglePatternUpload(UPLOAD_FIXTURE, "subdir/*", []);
    MatchingFilesTwo(UPLOAD_FIXTURE, "subdir/*", [], 3, 4);
  }

  lemma DatExclusionSelection()
    ensures forall i :: 0 <= i < |UPLOAD_FIXTURE| ==>
      (Selects(UPLOAD_FIXTURE[i], "*", ["*.dat"]) <==> i == 0 || i == 3)
  {
    forall i | 0 <= i < |UPLOAD_FIXTURE|
      ensures Selects(UPLOAD_FIXTURE[i], "*", ["*.dat"]) <==> i == 0 || i == 3
    {
      StarMatches(UPLOAD_FIXTURE[i].path);
      if i == 0 {
        TopTextNotDat();
      } else if i == 1 {
        TopDataEndsDat();
      } else if i == 3 {
        NestedTextNotDat();
      } else if i == 4 {
        NestedDataEndsDat();
      }
    }
  }

  lemma WithExclusionsCase()
    ensures FilesToUpload(UPLOAD_FIXTURE, ["*"], ["*.dat"]) == {"file1.txt", "subdir/file3.txt"}
  {
    DatExclusionSelection();
    SinglePatternUpload(UPLOAD_FIXTURE, "*", ["*.dat"]);
    MatchingFilesTwo(UPLOAD_FIXTURE, "*", ["*.dat"], 0, 3);
  }

  lemma EmptyDirectoryCase()
    ensures FilesToUpload([], ["*"], []) == {}
  {
    NoRegularFilesNothingToUpload([], ["*"], []);
  }
}
