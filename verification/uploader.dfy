/** Editing the ornament list: adding a batch from the file picker or from a
    drop (capped at 20 ornaments), removing one ornament by index, and
    clearing the list after confirmation. */
module Uploader {
  import opened Common

  const MaxOrnaments: nat := 20

  /** A selected file: its MIME type and opaque content. */
  datatype File<+C> = File(mimeType: string, content: C)

  const ImagePrefix: string := "image/"

  /** `file.type.startsWith("image/")`. */
  predicate IsImage<C>(f: File<C>) {
    |ImagePrefix| <= |f.mimeType| && f.mimeType[..|ImagePrefix|] == ImagePrefix
  }

  /** The prefix test is on the MIME type only: any `image/` subtype passes,
      and a bare "image" or another top-level type does not. */
  lemma ImageTypes<C>(c: C)
    ensures IsImage(File("image/png", c)) && IsImage(File("image/svg+xml", c))
    ensures !IsImage(File("image", c)) && !IsImage(File("text/plain", c))
  {
    assert "image/png"[..6] == ImagePrefix;
    assert "image/svg+xml"[..6] == ImagePrefix;
    assert "text/plain"[0] != ImagePrefix[0];
  }

  /** JavaScript's `s.slice(0, end)`: a negative `end` counts from the end,
      and the result is clamped to the list. */
  function SliceTo<T>(s: seq<T>, end: int): (r: seq<T>)
    ensures |r| <= |s| && r == s[..|r|]
    ensures end >= 0 ==> |r| == (if end <= |s| then end else |s|)
    ensures end < 0 ==> |r| == (if -end <= |s| then |s| + end else 0)
  {
    if end >= 0 then (if end <= |s| then s[..end] else s)
    else if -end <= |s| then s[..|s| + end]
    else []
  }

  /** The new list, and the ornament count quoted by the "Maximum 20 ornaments
      allowed. You have N." notice when one is raised. */
  datatype Added<+F> = Added(images: seq<F>, notice: Option<nat>)

  /** Append a batch, keeping at most `20 - |images|` of it when the total
      would exceed the cap. */
  function AddBatch<F>(images: seq<F>, batch: seq<F>): (r: Added<F>)
    ensures r.notice.Some? <==> |images| + |batch| > MaxOrnaments
    ensures r.notice.Some? ==> r.notice.value == |images|
    ensures |images| <= |r.images| <= |images| + |batch|
    ensures r.images[..|images|] == images
    ensures var accepted := r.images[|images|..]; accepted == batch[..|accepted|]
    ensures |images| + |batch| <= MaxOrnaments ==> r.images == images + batch
    ensures |images| <= MaxOrnaments ==> |r.images| <= MaxOrnaments
    ensures |images| <= MaxOrnaments < |images| + |batch| ==> |r.images| == MaxOrnaments
  {
    if |images| + |batch| > MaxOrnaments then
      var canAdd := MaxOrnaments - |images|;
      var kept := SliceTo(batch, canAdd);
      assert (images + kept)[|images|..] == kept;
      Added(images + kept, Some(|images|))
    else
      assert (images + batch)[|images|..] == batch;
      Added(images + batch, None)
  }

  /** Files chosen in the picker are added without any type check: what is
      added is a prefix of the picked files, whatever their types. */
  function HandleFileChange<C>(images: seq<File<C>>, picked: seq<File<C>>): (r: Added<File<C>>)
    ensures |images| <= |r.images| <= |images| + |picked|
    ensures r.images == images + picked[..|r.images| - |images|]
    ensures r.notice.Some? <==> |images| + |picked| > MaxOrnaments
    ensures r.notice.Some? ==> r.notice.value == |images|
    ensures |images| + |picked| <= MaxOrnaments ==> r.images == images + picked
    ensures |images| <= MaxOrnaments ==> |r.images| <= MaxOrnaments
    ensures |images| <= MaxOrnaments < |images| + |picked| ==> |r.images| == MaxOrnaments
  {
    var r := AddBatch(images, picked);
    assert r.images == r.images[..|images|] + r.images[|images|..];
    r
  }

  /** The files of a batch whose type starts with "image/", in their order. */
  function ImageFilesOnly<C>(files: seq<File<C>>): (r: seq<File<C>>)
    ensures |r| <= |files|
    ensures forall k :: 0 <= k < |r| ==> IsImage(r[k])
    ensures forall k :: 0 <= k < |files| && IsImage(files[k]) ==> files[k] in r
    ensures forall f :: f in r ==> f in files
  {
    if files == [] then []
    else (if IsImage(files[0]) then [files[0]] else []) + ImageFilesOnly(files[1..])
  }

  /** Filtering distributes over concatenation, so the kept files keep their
      relative order. */
  lemma {:induction false} ImageFilesOnlyAppend<C>(a: seq<File<C>>, b: seq<File<C>>)
    ensures ImageFilesOnly(a + b) == ImageFilesOnly(a) + ImageFilesOnly(b)
    decreases |a|
  {
    if a == [] {
      assert a + b == b;
    } else {
      assert (a + b)[1..] == a[1..] + b;
      ImageFilesOnlyAppend(a[1..], b);
    }
  }

  /** A batch of images only passes the filter unchanged; filtering twice is
      filtering once. */
  lemma {:induction false} ImageFilesOnlyKeepsImages<C>(files: seq<File<C>>)
    requires forall k :: 0 <= k < |files| ==> IsImage(files[k])
    ensures ImageFilesOnly(files) == files
    decreases |files|
  {
    if files != [] {
      ImageFilesOnlyKeepsImages(files[1..]);
    }
  }

  lemma ImageFilesOnlyIdempotent<C>(files: seq<File<C>>)
    ensures ImageFilesOnly(ImageFilesOnly(files)) == ImageFilesOnly(files)
  {
    ImageFilesOnlyKeepsImages(ImageFilesOnly(files));
  }

  /** Dropped files are filtered to images before the cap is applied; the
      notice compares the cap with the number of image files only. */
  function HandleDrop<C>(images: seq<File<C>>, dropped: seq<File<C>>): (r: Added<File<C>>)
    ensures r.notice.Some? <==> |images| + |ImageFilesOnly(dropped)| > MaxOrnaments
    ensures r.notice.Some? ==> r.notice.value == |images|
    ensures |images| <= |r.images| <= |images| + |ImageFilesOnly(dropped)|
    ensures r.images == images + ImageFilesOnly(dropped)[..|r.images| - |images|]
    ensures |images| + |ImageFilesOnly(dropped)| <= MaxOrnaments ==> r.images == images + ImageFilesOnly(dropped)
    ensures forall k :: |images| <= k < |r.images| ==> IsImage(r.images[k])
    ensures |images| <= MaxOrnaments ==> |r.images| <= MaxOrnaments
    ensures |images| <= MaxOrnaments < |images| + |ImageFilesOnly(dropped)| ==> |r.images| == MaxOrnaments
  {
    var r := AddBatch(images, ImageFilesOnly(dropped));
    assert forall k :: |images| <= k < |r.images| ==> r.images[k] == ImageFilesOnly(dropped)[k - |images|] by {
      var accepted := r.images[|images|..];
      forall k | |images| <= k < |r.images|
        ensures r.images[k] == ImageFilesOnly(dropped)[k - |images|]
      {
        assert r.images[k] == accepted[k - |images|];
      }
    }
    assert r.images == r.images[..|images|] + r.images[|images|..];
    r
  }

  /** `images.filter((_, i) => i !== index)` on the suffix starting at list
      index `base`. */
  function KeepOthers<T>(s: seq<T>, index: int, base: nat): (r: seq<T>)
    decreases |s|
  {
    if s == [] then []
    else (if base == index then [] else [s[0]]) + KeepOthers(s[1..], index, base + 1)
  }

  /** Remove the ornament at `index`; any other index leaves the list as is. */
  function RemoveImage<T>(images: seq<T>, index: int): (r: seq<T>)
    ensures 0 <= index < |images| ==> r == images[..index] + images[index + 1..]
    ensures !(0 <= index < |images|) ==> r == images
  {
    KeepOthersShape(images, index, 0);
    KeepOthers(images, index, 0)
  }

  lemma {:induction false} KeepOthersShape<T>(s: seq<T>, index: int, base: nat)
    ensures base <= index < base + |s| ==>
      KeepOthers(s, index, base) == s[..index - base] + s[index - base + 1..]
    ensures !(base <= index < base + |s|) ==> KeepOthers(s, index, base) == s
    decreases |s|
  {
    if s != [] {
      KeepOthersShape(s[1..], index, base + 1);
      if base == index {
        assert s[..0] + s[1..] == s[1..];
      } else if base < index < base + |s| {
        assert [s[0]] + (s[1..][..index - base - 1] + s[1..][index - base..])
            == s[..index - base] + s[index - base + 1..];
      } else {
        assert [s[0]] + s[1..] == s;
      }
    }
  }

  /** Removing deletes exactly element `index` and keeps the others in
      order; an index outside the list changes nothing. */
  lemma RemoveImageSpec<T>(images: seq<T>, index: int)
    ensures 0 <= index < |images| ==>
      var r := RemoveImage(images, index);
      && |r| == |images| - 1
      && (forall k :: 0 <= k < index ==> r[k] == images[k])
      && (forall k :: index <= k < |r| ==> r[k] == images[k + 1])
    ensures !(0 <= index < |images|) ==> RemoveImage(images, index) == images
  {
    KeepOthersShape(images, index, 0);
  }

  /** Clearing happens only when the user confirms the prompt. */
  function ClearAll<T>(images: seq<T>, confirmed: bool): (r: seq<T>)
    ensures confirmed ==> r == []
    ensures !confirmed ==> r == images
  {
    if confirmed then [] else images
  }
}
