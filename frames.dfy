/**
 * Animation frame ordering: which file names makeMovieFromInitialFile and
 * makeAVIMovieFromInitialFile load, in which order, and which names
 * writeSlideShowTo collects. Directory listings are inputs; decoding the
 * frames and encoding the animation are not modelled.
 */
module Frames {
  import opened Wrappers
  import opened Text

  /**
   * The directory part and the file name of `firstFile`, split at its last
   * "//"; without a "//" the directory is "" and the name is the whole string.
   */
  function SplitFirstFile(firstFile: string): (r: (string, string))
    ensures Contains(firstFile, "//") ==> r.0 + "//" + r.1 == firstFile
    ensures !Contains(firstFile, "//") ==> r == ("", firstFile)
    ensures !Contains(r.1, "//")
    ensures Contains(firstFile, "//") ==> forall k :: |r.0| < k ==> !OccursAt(firstFile, "//", k)
  {
    if Contains(firstFile, "//") then
      var i := RFind(firstFile, "//");
      RFindContains(firstFile, "//");
      var name := firstFile[i + 2..];
      assert !Contains(name, "//") by {
        forall k | 0 <= k <= |name| ensures !OccursAt(name, "//", k) {
          assert !OccursAt(firstFile, "//", i + 2 + k);
          if k + 2 <= |name| {
            assert firstFile[i + 2 + k..i + 2 + k + 2] == name[k..k + 2];
          }
        }
      }
      assert firstFile[..i] + "//" + name == firstFile by {
        assert firstFile[i..i + 2] == "//";
        assert firstFile == firstFile[..i] + firstFile[i..i + 2] + firstFile[i + 2..];
      }
      (firstFile[..i], name)
    else
      ("", firstFile)
  }

  datatype FrameError = NotFound

  /**
   * In a sorted list, the suffix from the first occurrence of `name` holds
   * exactly the elements that sort at or after `name`, in order.
   */
  lemma SortedSuffixFrom(s: seq<string>, name: string, index: int)
    requires Sorted(s) && 0 <= index < |s| && s[index] == name && name !in s[..index]
    ensures Sorted(s[index..])
    ensures forall x :: x in s[index..] <==> x in s && LexLe(name, x)
  {
    forall x | x in s && LexLe(name, x) ensures x in s[index..] {
      var j :| 0 <= j < |s| && s[j] == x;
      if j < index {
        LexLeAntisymmetric(x, name);
      }
      assert s[index..][j - index] == x;
    }
    forall x | x in s[index..] ensures LexLe(name, x) {
      var j :| 0 <= j < |s[index..]| && s[index..][j] == x;
      if j > 0 { assert s[index + j] == x; } else { LexLeReflexive(name); }
    }
    forall i, j | 0 <= i < j < |s| - index ensures LexLe(s[index..][i], s[index..][j]) {
      assert s[index..][i] == s[index + i] && s[index..][j] == s[index + j];
    }
  }

  /**
   * The same suffix counted with multiplicity: each element at or after `name`
   * occurs in it as often as in the whole list, every other element not at all.
   */
  lemma SortedSuffixCounts(s: seq<string>, name: string, index: int)
    requires Sorted(s) && 0 <= index < |s| && s[index] == name && name !in s[..index]
    ensures forall x ::
      multiset(s[index..])[x] == (if LexLe(name, x) then multiset(s)[x] else 0)
  {
    SortedSuffixFrom(s, name, index);
    assert s == s[..index] + s[index..];
    forall x ensures multiset(s[index..])[x] == (if LexLe(name, x) then multiset(s)[x] else 0) {
      if LexLe(name, x) {
        if x in s[..index] {
          var j :| 0 <= j < index && s[..index][j] == x;
          assert LexLe(s[j], s[index]);
          LexLeAntisymmetric(x, name);
        }
        assert multiset(s[..index])[x] == 0;
      } else {
        assert x !in s[index..];
      }
    }
  }

  /**
   * The sorted listing from `fileName` onwards: the listed names that sort at
   * or after it, in name order, starting with it; NotFound if it is not listed.
   */
  function FramesFrom(listing: seq<string>, fileName: string): (r: Result<seq<string>, FrameError>)
    ensures r.Err? <==> fileName !in listing
    ensures r.Ok? ==> |r.value| > 0 && r.value[0] == fileName && Sorted(r.value)
    ensures r.Ok? ==> forall x :: x in r.value <==> x in listing && LexLe(fileName, x)
    ensures r.Ok? ==> forall x ::
      multiset(r.value)[x] == (if LexLe(fileName, x) then multiset(listing)[x] else 0)
  {
    var imageFiles := SortNames(listing);
    var index := IndexOf(imageFiles, fileName);
    assert forall x :: x in listing <==> x in imageFiles by {
      forall x ensures x in listing <==> x in imageFiles {
        assert x in listing <==> x in multiset(imageFiles);
      }
    }
    if index == -1 then Err(NotFound)
    else
      SortedSuffixFrom(imageFiles, fileName, index);
      SortedSuffixCounts(imageFiles, fileName, index);
      Ok(imageFiles[index..])
  }

  /**
   * makeMovieFromInitialFile / makeAVIMovieFromInitialFile, up to loading the
   * frames: the directory of `firstFile` is listed (`listDir` gives the names a
   * directory holds) and the frames are the sorted names from its file name on.
   */
  function InitialFrameNames(firstFile: string, listDir: string -> seq<string>)
    : (r: Result<seq<string>, FrameError>)
    ensures r.Err? <==> SplitFirstFile(firstFile).1 !in listDir(SplitFirstFile(firstFile).0)
    ensures r.Ok? ==> |r.value| > 0 && r.value[0] == SplitFirstFile(firstFile).1 && Sorted(r.value)
    ensures r.Ok? ==> forall x :: x in r.value <==>
      x in listDir(SplitFirstFile(firstFile).0) && LexLe(SplitFirstFile(firstFile).1, x)
    ensures r.Ok? ==> forall x ::
      multiset(r.value)[x] == (if LexLe(SplitFirstFile(firstFile).1, x)
                               then multiset(listDir(SplitFirstFile(firstFile).0))[x] else 0)
  {
    var split := SplitFirstFile(firstFile);
    FramesFrom(listDir(split.0), split.1)
  }

  /** The directory is what precedes the last "//", the name what follows it. */
  lemma SplitFirstFileExample()
    ensures SplitFirstFile("anim//frame02") == ("anim", "frame02")
  {
    var f := "anim//frame02";
    assert OccursAt(f, "//", 4);
    forall k | 4 < k ensures !OccursAt(f, "//", k) {
      if k + 2 <= |f| { assert f[k..k + 2][1] == f[k + 1]; }
    }
    assert f[..4] == "anim" && f[4 + 2..] == "frame02";
  }

  /** Names sort by code point, so a frame number without zero padding sorts out of order. */
  lemma UnpaddedNamesSortByCodePoint()
    ensures SortNames(["frame2", "frame10"]) == ["frame10", "frame2"]
  {
  }

  /** A slide: a name starting with "slide" and ending with ".jpg" or ".jpeg". */
  predicate IsSlideName(fn: string)
  {
    StartsWith(fn, "slide") && (EndsWith(fn, ".jpg") || EndsWith(fn, ".jpeg"))
  }

  /**
   * writeSlideShowTo's selection: the slide names of the listing, each as
   * often as it is listed, in name order.
   */
  method SlideFiles(allFiles: seq<string>) returns (slideFiles: seq<string>)
    ensures Sorted(slideFiles)
    ensures forall fn ::
      multiset(slideFiles)[fn] == (if IsSlideName(fn) then multiset(allFiles)[fn] else 0)
  {
    slideFiles := [];
    var i := 0;
    while i < |allFiles|
      invariant 0 <= i <= |allFiles|
      invariant forall fn ::
        multiset(slideFiles)[fn] == (if IsSlideName(fn) then multiset(allFiles[..i])[fn] else 0)
    {
      var fn := allFiles[i];
      assert allFiles[..i + 1] == allFiles[..i] + [fn];
      if IsSlideName(fn) {
        slideFiles := slideFiles + [fn];
      }
      i := i + 1;
    }
    assert allFiles[..i] == allFiles;
    slideFiles := SortNames(slideFiles);
  }
}
