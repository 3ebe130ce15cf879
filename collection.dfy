/**
 * The staging list of selected image files, as values: the file record, the
 * identity rule used for de-duplication, the image-type filter, and the
 * specification functions of "append the new files" and "remove by position".
 */
module Collection {

  /** One file chosen by the user. The binary content is identified with the record itself. */
  datatype SelectedFile = SelectedFile(name: string, size: nat, lastModified: int, mimeType: string)

  /** Two files are the same for de-duplication when name, size and timestamp agree (the MIME type is ignored). */
  predicate SameIdentity(a: SelectedFile, b: SelectedFile) {
    a.name == b.name && a.size == b.size && a.lastModified == b.lastModified
  }

  /**
   * The top-level "image" media type of section 4.2 of RFC 2046, recognised
   * by the prefix "image/" of the type string (case-sensitive, as the code's
   * test is; browsers report a file's type in lower case).
   */
  predicate IsImageType(mimeType: string) {
    "image/" <= mimeType
  }

  /** Some entry of `list` has the identity of `file`. */
  predicate Present(list: seq<SelectedFile>, file: SelectedFile) {
    exists k :: 0 <= k < |list| && SameIdentity(list[k], file)
  }

  /** No two entries share an identity. */
  predicate Unique(list: seq<SelectedFile>) {
    forall i, j :: 0 <= i < j < |list| ==> !SameIdentity(list[i], list[j])
  }

  /** Every entry has an image type. */
  predicate AllImages(list: seq<SelectedFile>) {
    forall k :: 0 <= k < |list| ==> IsImageType(list[k].mimeType)
  }

  /** The candidates whose type is an image type, in their original order. */
  function ImageFiles(files: seq<SelectedFile>): (r: seq<SelectedFile>)
    ensures forall f :: f in r <==> f in files && IsImageType(f.mimeType)
    ensures AllImages(r)
    ensures |r| <= |files|
  {
    if files == [] then []
    else (if IsImageType(files[0].mimeType) then [files[0]] else []) + ImageFiles(files[1..])
  }

  /** Filtering neither drops nor repeats an image: each image file occurs as often as in the input, any other file never. */
  lemma {:induction false} ImageFilesCounts(files: seq<SelectedFile>)
    ensures forall f :: multiset(ImageFiles(files))[f] == if IsImageType(f.mimeType) then multiset(files)[f] else 0
    decreases |files|
  {
    if files != [] {
      ImageFilesCounts(files[1..]);
      assert files == [files[0]] + files[1..];
    }
  }

  /** Filtering keeps order: the images of two batches in sequence are the images of the first, then of the second. */
  lemma {:induction false} ImageFilesAppend(a: seq<SelectedFile>, b: seq<SelectedFile>)
    ensures ImageFiles(a + b) == ImageFiles(a) + ImageFiles(b)
    decreases |a|
  {
    if a != [] {
      assert (a + b)[0] == a[0];
      assert (a + b)[1..] == a[1..] + b;
      ImageFilesAppend(a[1..], b);
    } else {
      assert a + b == b;
    }
  }

  /**
   * The list after each candidate in turn is appended unless an entry with
   * its identity is already in the list as it stands at that moment (so a
   * duplicate inside one batch is dropped as well).
   */
  function AppendNew(list: seq<SelectedFile>, candidates: seq<SelectedFile>): (r: seq<SelectedFile>)
    ensures list <= r
    ensures |r| <= |list| + |candidates|
    ensures forall k :: |list| <= k < |r| ==> r[k] in candidates
    decreases |candidates|
  {
    if candidates == [] then list
    else
      var before := AppendNew(list, candidates[..|candidates| - 1]);
      var last := candidates[|candidates| - 1];
      if Present(before, last) then before else before + [last]
  }

  /**
   * Reference definition of what AppendNew adds: the candidates whose identity
   * is neither in `list` nor among the earlier candidates, in input order.
   */
  function NewArrivals(list: seq<SelectedFile>, candidates: seq<SelectedFile>): (r: seq<SelectedFile>)
    ensures |r| <= |candidates|
    decreases |candidates|
  {
    if candidates == [] then []
    else
      var earlier := candidates[..|candidates| - 1];
      var last := candidates[|candidates| - 1];
      NewArrivals(list, earlier)
        + (if !Present(list, last) && !Present(earlier, last) then [last] else [])
  }

  /**
   * The list after JavaScript's `splice(index, 1)`: a negative index counts
   * from the end (clamped at the front), an index at or past the end removes
   * nothing.
   */
  function SpliceOne(list: seq<SelectedFile>, index: int): (r: seq<SelectedFile>)
    ensures 0 <= index < |list| ==> r == list[..index] + list[index + 1..]
    ensures index >= |list| ==> r == list
    ensures -|list| <= index < 0 ==> r == list[..|list| + index] + list[|list| + index + 1..]
    ensures index < -|list| && list != [] ==> r == list[1..]
    ensures forall f :: f in r ==> f in list
  {
    var start := if index < 0 then (if |list| + index < 0 then 0 else |list| + index)
                 else (if index < |list| then index else |list|);
    if start < |list| then list[..start] + list[start + 1..] else list
  }

  lemma PresentAppend(a: seq<SelectedFile>, b: seq<SelectedFile>, file: SelectedFile)
    ensures Present(a + b, file) <==> Present(a, file) || Present(b, file)
  {
    if Present(a + b, file) {
      var k :| 0 <= k < |a + b| && SameIdentity((a + b)[k], file);
      if k >= |a| {
        assert SameIdentity(b[k - |a|], file);
      }
    }
    if Present(a, file) {
      var k :| 0 <= k < |a| && SameIdentity(a[k], file);
      assert SameIdentity((a + b)[k], file);
    }
    if Present(b, file) {
      var k :| 0 <= k < |b| && SameIdentity(b[k], file);
      assert SameIdentity((a + b)[|a| + k], file);
    }
  }

  /** Appending one more candidate: it is added exactly when its identity is not yet in the list built so far. */
  lemma AppendNewStep(list: seq<SelectedFile>, candidates: seq<SelectedFile>, i: nat)
    requires i < |candidates|
    ensures AppendNew(list, candidates[..i + 1])
      == var before := AppendNew(list, candidates[..i]);
         if Present(before, candidates[i]) then before else before + [candidates[i]]
  {
    assert candidates[..i + 1][..i] == candidates[..i];
  }

  /** After appending, a file's identity is present exactly when it was in the list or among the candidates. */
  lemma {:induction false} AppendNewPresent(list: seq<SelectedFile>, candidates: seq<SelectedFile>, file: SelectedFile)
    ensures Present(AppendNew(list, candidates), file) <==> Present(list, file) || Present(candidates, file)
    decreases |candidates|
  {
    if candidates != [] {
      var earlier := candidates[..|candidates| - 1];
      var last := candidates[|candidates| - 1];
      assert candidates == earlier + [last];
      AppendNewPresent(list, earlier, file);
      AppendNewPresent(list, earlier, last);
      PresentAppend(earlier, [last], file);
      var before := AppendNew(list, earlier);
      PresentAppend(before, [last], file);
      if SameIdentity(last, file) && Present(before, last) {
        var k :| 0 <= k < |before| && SameIdentity(before[k], last);
        assert SameIdentity(before[k], file);
      }
    }
  }

  /** Appending keeps the list free of duplicate identities. */
  lemma {:induction false} AppendNewUnique(list: seq<SelectedFile>, candidates: seq<SelectedFile>)
    requires Unique(list)
    ensures Unique(AppendNew(list, candidates))
    decreases |candidates|
  {
    if candidates != [] {
      var earlier := candidates[..|candidates| - 1];
      var last := candidates[|candidates| - 1];
      AppendNewUnique(list, earlier);
      var before := AppendNew(list, earlier);
      if !Present(before, last) {
        var r := before + [last];
        forall i, j | 0 <= i < j < |r| ensures !SameIdentity(r[i], r[j]) {
          if j == |before| {
            assert !SameIdentity(before[i], last);
          }
        }
      }
    }
  }

  /** Appending image files to a list of images gives a list of images. */
  lemma AppendNewAllImages(list: seq<SelectedFile>, candidates: seq<SelectedFile>)
    requires AllImages(list) && AllImages(candidates)
    ensures AllImages(AppendNew(list, candidates))
  {
  }

  /** The old list is kept as a prefix and the appended suffix is exactly the new arrivals, in input order. */
  lemma {:induction false} AppendNewIsPrefixPlusArrivals(list: seq<SelectedFile>, candidates: seq<SelectedFile>)
    ensures AppendNew(list, candidates) == list + NewArrivals(list, candidates)
    decreases |candidates|
  {
    if candidates != [] {
      var earlier := candidates[..|candidates| - 1];
      var last := candidates[|candidates| - 1];
      AppendNewIsPrefixPlusArrivals(list, earlier);
      AppendNewPresent(list, earlier, last);
    }
  }

  /** Candidates that are pairwise distinct and all new are appended one for one, in input order. */
  lemma {:induction false} AppendDistinctNew(list: seq<SelectedFile>, candidates: seq<SelectedFile>)
    requires Unique(candidates)
    requires forall k :: 0 <= k < |candidates| ==> !Present(list, candidates[k])
    ensures AppendNew(list, candidates) == list + candidates
    decreases |candidates|
  {
    if candidates != [] {
      var earlier := candidates[..|candidates| - 1];
      var last := candidates[|candidates| - 1];
      assert Unique(earlier);
      AppendDistinctNew(list, earlier);
      AppendNewPresent(list, earlier, last);
      assert earlier + [last] == candidates;
    }
  }

  /** Candidates whose identities are all present already leave the list unchanged. */
  lemma {:induction false} AppendExistingIsNoOp(list: seq<SelectedFile>, candidates: seq<SelectedFile>)
    requires forall k :: 0 <= k < |candidates| ==> Present(list, candidates[k])
    ensures AppendNew(list, candidates) == list
    decreases |candidates|
  {
    if candidates != [] {
      var earlier := candidates[..|candidates| - 1];
      AppendExistingIsNoOp(list, earlier);
    }
  }

  /** Removing the entry at one valid position keeps the list free of duplicate identities and all images. */
  lemma RemoveAtPreserves(list: seq<SelectedFile>, start: nat)
    requires start < |list| && Unique(list) && AllImages(list)
    ensures Unique(list[..start] + list[start + 1..]) && AllImages(list[..start] + list[start + 1..])
  {
    var r := list[..start] + list[start + 1..];
    assert forall k :: 0 <= k < |r| ==> r[k] == list[if k < start then k else k + 1];
  }

  /** Whatever index `splice` is given, the list stays free of duplicate identities and all images. */
  lemma SpliceOnePreserves(list: seq<SelectedFile>, index: int)
    requires Unique(list) && AllImages(list)
    ensures Unique(SpliceOne(list, index)) && AllImages(SpliceOne(list, index))
  {
    var r := SpliceOne(list, index);
    if index >= |list| || list == [] {
      assert r == list;
    } else {
      var start: nat := if index >= 0 then index else if |list| + index >= 0 then |list| + index else 0;
      assert r == list[..start] + list[start + 1..];
      RemoveAtPreserves(list, start);
    }
  }
}
