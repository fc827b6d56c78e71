/**
 * The image side of the camera handlers. A camera's images are the files of
 * `<IMAGES_DIRECTORY>/<camera id>`, each named `<seconds since epoch>.jpg`.
 * The directory itself is not modelled: a handler receives what `read_dir`
 * gave for the camera directory (`None` when it failed) and a predicate
 * saying which paths `File::open` / `stream_to_file` succeed on.
 */
module CameraImages {
  import opened Types
  import opened ApiErrors
  import opened Text
  import CameraTokens

  const ListImagesFailed := ApiError("Failed to get list of images", InternalServerError)
  const NoImages := ApiError("Camera has no images (or doesn't exist)", Status.NotFound)
  const SaveImageFailed := ApiError("Failed to save image to server", InternalServerError)
  const LoadImageFailed := ApiError("Failed to load image", InternalServerError)
  const ImageNotFound := ApiError("Image not found", Status.NotFound)

  /** `camera_directory`: the camera's directory under the images root. */
  function CameraDirectory(images_directory: string, camera_id_string: string): (dir: string)
    ensures |dir| == |images_directory| + 1 + |camera_id_string|
    ensures dir[..|images_directory|] == images_directory && dir[|images_directory|] == '/'
    ensures dir[|images_directory| + 1..] == camera_id_string
  {
    images_directory + "/" + camera_id_string
  }

  /** `DirEntry::path()` of the entry `name` listed from `dir`. */
  function EntryPath(dir: string, name: string): (p: string)
    ensures |p| == |dir| + 1 + |name|
    ensures p[..|dir| + 1] == dir + "/" && p[|dir| + 1..] == name
  {
    dir + "/" + name
  }

  // ---------------------------------------------------------------- sorting

  ghost predicate SortedByName(s: seq<string>) {
    forall i, j | 0 <= i < j < |s| :: NameLe(s[i], s[j])
  }

  predicate AllEntryNames(s: seq<string>) {
    forall i | 0 <= i < |s| :: IsEntryName(s[i])
  }

  /** `x` placed before the first element it does not follow. */
  function InsertByName(x: string, s: seq<string>): (r: seq<string>)
    ensures |r| == |s| + 1
    ensures multiset(r) == multiset(s) + multiset{x}
    ensures SortedByName(s) ==> SortedByName(r)
  {
    if s == [] then [x]
    else if NameLe(x, s[0]) then
      assert SortedByName(s) ==> SortedByName([x] + s) by {
        if SortedByName(s) {
          forall j | 0 <= j < |s| ensures NameLe(x, s[j]) {
            if j > 0 { NameLeTransitive(x, s[0], s[j]); }
          }
          forall i, j | 0 <= i < j < |s| + 1 ensures NameLe(([x] + s)[i], ([x] + s)[j]) {
            assert ([x] + s)[j] == s[j - 1];
          }
        }
      }
      [x] + s
    else
      var rest := InsertByName(x, s[1..]);
      assert s == [s[0]] + s[1..];
      assert SortedByName(s) ==> SortedByName([s[0]] + rest) by {
        if SortedByName(s) {
          NameLeTotal(x, s[0]);
          forall y | y in rest ensures NameLe(s[0], y) {
            assert y in multiset(rest);
            if y != x {
              assert y in multiset(s[1..]);
              var k :| 0 <= k < |s[1..]| && s[1..][k] == y;
              assert s[k + 1] == y;
            }
          }
          forall i, j | 0 <= i < j < |rest| + 1
            ensures NameLe(([s[0]] + rest)[i], ([s[0]] + rest)[j])
          {
            if i == 0 {
              assert rest[j - 1] in rest;
            }
          }
        }
      }
      [s[0]] + rest
  }

  /**
   * The listing ordered by file name: the result `Vec::sort_by` leaves for
   * the comparator `a.file_name().cmp(&b.file_name())`.
   */
  function SortByName(s: seq<string>): (r: seq<string>)
    ensures |r| == |s|
    ensures multiset(r) == multiset(s)
    ensures SortedByName(r)
  {
    if s == [] then []
    else
      assert s == [s[0]] + s[1..];
      InsertByName(s[0], SortByName(s[1..]))
  }

  /** The first name of a sorted listing comes before every listed name. */
  lemma HeadIsLeast(s: seq<string>, x: string)
    requires SortedByName(s) && x in s
    ensures NameLe(s[0], x)
  {
    var k :| 0 <= k < |s| && s[k] == x;
    if k == 0 { NameLeTotal(x, x); }
  }

  lemma SortedTail(s: seq<string>)
    requires SortedByName(s) && s != []
    ensures SortedByName(s[1..]) && multiset(s[1..]) == multiset(s) - multiset{s[0]}
  {
    assert s == [s[0]] + s[1..];
    forall i, j | 0 <= i < j < |s| - 1 ensures NameLe(s[1..][i], s[1..][j]) {
      assert s[1..][i] == s[i + 1] && s[1..][j] == s[j + 1];
    }
  }

  /** Two sorted listings of the same entries start with the same name. */
  lemma SameHead(a: seq<string>, b: seq<string>)
    requires SortedByName(a) && SortedByName(b) && multiset(a) == multiset(b) && a != [] && b != []
    ensures a[0] == b[0]
  {
    assert a[0] in multiset(a) && b[0] in multiset(b);
    HeadIsLeast(b, a[0]);
    HeadIsLeast(a, b[0]);
    NameLeAntisymmetric(a[0], b[0]);
  }

  /** There is one order of a listing by file name, so any sort yields `SortByName`. */
  lemma {:induction false} SortedPermutationUnique(a: seq<string>, b: seq<string>)
    requires SortedByName(a) && SortedByName(b) && multiset(a) == multiset(b)
    ensures a == b
    decreases |a|
  {
    assert |a| == |multiset(a)| == |multiset(b)| == |b|;
    if a != [] {
      SameHead(a, b);
      SortedTail(a);
      SortedTail(b);
      SortedPermutationUnique(a[1..], b[1..]);
      assert a == [a[0]] + a[1..] && b == [b[0]] + b[1..];
    }
  }

  /** The listing's entries are the sorted listing's entries. */
  lemma SortByNameSameEntries(s: seq<string>)
    ensures forall x :: x in SortByName(s) <==> x in s
  {
    var r := SortByName(s);
    forall x ensures x in r <==> x in s {
      assert x in r <==> x in multiset(r);
      assert x in s <==> x in multiset(s);
    }
  }

  /**
   * Insertion-sort state: the first `i + 1` names are ordered, except that
   * the name at `j` may come before names to its left.
   */
  ghost predicate OrderedBut(s: seq<string>, i: int, j: int)
    requires 0 <= j <= i < |s|
  {
    forall k, l | 0 <= k < l <= i && l != j :: NameLe(s[k], s[l])
  }

  lemma StartInsert(s: seq<string>, i: int)
    requires 0 <= i < |s| && SortedByName(s[..i])
    ensures OrderedBut(s, i, i)
  {
  }

  /** Swapping the moving name with a greater left neighbour keeps the state. */
  lemma SwapStep(s: seq<string>, i: int, j: int)
    requires 0 < j <= i < |s| && OrderedBut(s, i, j) && !NameLe(s[j - 1], s[j])
    ensures OrderedBut(s[j - 1 := s[j]][j := s[j - 1]], i, j - 1)
  {
    var t := s[j - 1 := s[j]][j := s[j - 1]];
    NameLeTotal(s[j - 1], s[j]);
    forall k, l | 0 <= k < l <= i && l != j - 1 ensures NameLe(t[k], t[l]) {
      if k == j - 1 && l > j {
        NameLeTransitive(s[j], s[j - 1], s[l]);
      }
    }
  }

  /** Once the moving name follows its left neighbour, the prefix is sorted. */
  lemma FinishInsert(s: seq<string>, i: int, j: int)
    requires 0 <= j <= i < |s| && OrderedBut(s, i, j) && (j == 0 || NameLe(s[j - 1], s[j]))
    ensures SortedByName(s[..i + 1])
  {
    forall k, l | 0 <= k < l <= i ensures NameLe(s[k], s[l]) {
      if l == j && k < j - 1 {
        NameLeTransitive(s[k], s[j - 1], s[j]);
      }
    }
    var p := s[..i + 1];
    forall k, l | 0 <= k < l < |p| ensures NameLe(p[k], p[l]) {
      assert p[k] == s[k] && p[l] == s[l];
    }
  }

  /** `sort_by` on the names, in place. */
  method SortEntries(a: array<string>)
    modifies a
    ensures SortedByName(a[..])
    ensures multiset(a[..]) == multiset(old(a[..]))
  {
    var i := 0;
    while i < a.Length
      invariant 0 <= i <= a.Length
      invariant SortedByName(a[..i])
      invariant multiset(a[..]) == multiset(old(a[..]))
    {
      StartInsert(a[..], i);
      var j := i;
      while j > 0 && !NameLe(a[j - 1], a[j])
        invariant 0 <= j <= i
        invariant OrderedBut(a[..], i, j)
        invariant multiset(a[..]) == multiset(old(a[..]))
      {
        SwapStep(a[..], i, j);
        a[j - 1], a[j] := a[j], a[j - 1];
        j := j - 1;
      }
      FinishInsert(a[..], i, j);
      i := i + 1;
    }
    assert a[..] == a[..a.Length];
  }

  // ---------------------------------------------------------------- listing

  /**
   * `list_camera_directory`: a failed `read_dir` and an empty listing are the
   * two errors; otherwise every entry, ordered by name when `sort` holds and
   * as listed when it does not.
   */
  method ListCameraDirectory(listing: Option<seq<string>>, sort: bool) returns (r: Result<seq<string>, ApiError>)
    ensures listing.None? ==> r == Err(ListImagesFailed)
    ensures listing == Some([]) ==> r == Err(NoImages)
    ensures listing.Some? && listing.value != [] ==>
      r == Ok(if sort then SortByName(listing.value) else listing.value)
    ensures r.Ok? ==> r.value != [] && multiset(r.value) == multiset(listing.value)
    ensures r.Ok? && sort ==> SortedByName(r.value)
  {
    if listing.None? {
      return Err(ListImagesFailed);
    }
    var entries := listing.value;
    var sorted_image_list := new string[|entries|](i requires 0 <= i < |entries| => entries[i]);
    assert sorted_image_list[..] == entries;
    if sorted_image_list.Length == 0 {
      return Err(NoImages);
    }
    if sort {
      SortEntries(sorted_image_list);
      SortedPermutationUnique(sorted_image_list[..], SortByName(entries));
    }
    r := Ok(sorted_image_list[..]);
  }

  /** The stems of the entries, one per entry, in the same order. */
  function Stems(names: seq<string>): (stems: seq<string>)
    requires AllEntryNames(names)
    ensures |stems| == |names|
    ensures forall i | 0 <= i < |names| :: stems[i] == FileStem(names[i])
  {
    seq(|names|, i requires 0 <= i < |names| => FileStem(names[i]))
  }

  /** `Iterator::position`: the first index holding `x`. */
  function Position(s: seq<string>, x: string): (r: Option<nat>)
    ensures r.None? <==> x !in s
    ensures r.Some? ==> r.value < |s| && s[r.value] == x && x !in s[..r.value]
  {
    if s == [] then None
    else if s[0] == x then Some(0)
    else
      match Position(s[1..], x)
      case None => None
      case Some(i) =>
        assert s[..i + 1] == [s[0]] + s[1..][..i];
        Some(i + 1)
  }

  /** The last name of the sorted listing is listed, and no listed name comes after it. */
  lemma LastIsGreatest(entries: seq<string>)
    requires entries != []
    ensures SortByName(entries)[|entries| - 1] in entries
    ensures forall i | 0 <= i < |entries| :: NameLe(entries[i], SortByName(entries)[|entries| - 1])
  {
    var s := SortByName(entries);
    SortByNameSameEntries(entries);
    assert s[|s| - 1] in s;
    forall i | 0 <= i < |entries| ensures NameLe(entries[i], s[|s| - 1]) {
      assert entries[i] in s;
      var k :| 0 <= k < |s| && s[k] == entries[i];
      if k == |s| - 1 {
        NameLeTotal(entries[i], entries[i]);
      }
    }
  }

  /**
   * `sorted_image_list.last()`: the entry `get_latest` opens, which is a
   * listed name that no listed name comes after.
   */
  function Latest(entries: seq<string>): (name: string)
    requires entries != []
    ensures name in entries
    ensures forall i | 0 <= i < |entries| :: NameLe(entries[i], name)
  {
    LastIsGreatest(entries);
    SortByName(entries)[|entries| - 1]
  }

  /** Only one listed name is greatest, so `Latest` does not depend on how the sort breaks ties. */
  lemma {:induction false} LatestIsUnique(entries: seq<string>, y: string)
    requires y in entries
    requires forall x | x in entries :: NameLe(x, y)
    ensures y == Latest(entries)
  {
    var k :| 0 <= k < |entries| && entries[k] == y;
    NameLeAntisymmetric(y, Latest(entries));
  }

  // ---------------------------------------------------------------- handlers

  /**
   * `get_latest`: the access check, then the sorted listing; the path opened
   * is that of the entry with the greatest name.
   */
  method GetLatest(access: Access, images_directory: string, camera_id_string: string,
                   listing: Option<seq<string>>, opens: string -> bool)
    returns (r: Result<string, ApiError>)
    ensures access.Denied? ==> r == Err(access.error)
    ensures access.Granted? && listing.None? ==> r == Err(ListImagesFailed)
    ensures access.Granted? && listing == Some([]) ==> r == Err(NoImages)
    ensures access.Granted? && listing.Some? && listing.value != [] ==>
      var path := EntryPath(CameraDirectory(images_directory, camera_id_string), Latest(listing.value));
      r == if opens(path) then Ok(path) else Err(LoadImageFailed)
  {
    if access.Denied? {
      return Err(access.error);
    }
    var camera_directory := CameraDirectory(images_directory, camera_id_string);
    var sorted_image_list := ListCameraDirectory(listing, true);
    if sorted_image_list.Err? {
      return Err(sorted_image_list.error);
    }
    assert listing.Some? && listing.value != [];
    var entries := sorted_image_list.value;
    assert entries == SortByName(listing.value);
    var last := entries[|entries| - 1];
    assert last == Latest(listing.value);
    var path := EntryPath(camera_directory, last);
    if opens(path) {
      r := Ok(path);
    } else {
      r := Err(LoadImageFailed);
    }
  }

  /**
   * `get_image_list`: the access check, then the stems of the entries in
   * name order, one per entry.
   */
  method GetImageList(access: Access, listing: Option<seq<string>>) returns (r: Result<seq<string>, ApiError>)
    requires listing.Some? ==> AllEntryNames(listing.value)
    ensures access.Denied? ==> r == Err(access.error)
    ensures access.Granted? && listing.None? ==> r == Err(ListImagesFailed)
    ensures access.Granted? && listing == Some([]) ==> r == Err(NoImages)
    ensures access.Granted? && listing.Some? && listing.value != [] ==>
      AllEntryNames(SortByName(listing.value)) && r == Ok(Stems(SortByName(listing.value)))
  {
    if access.Denied? {
      return Err(access.error);
    }
    var sorted_directory_list := ListCameraDirectory(listing, true);
    if sorted_directory_list.Err? {
      return Err(sorted_directory_list.error);
    }
    var entries := sorted_directory_list.value;
    SortByNameSameEntries(listing.value);
    assert AllEntryNames(entries) by {
      forall i | 0 <= i < |entries| ensures IsEntryName(entries[i]) {
        assert entries[i] in listing.value;
      }
    }
    r := Ok(Stems(entries));
  }

  /**
   * `get_image`: the access check, then the unsorted listing; the path opened
   * is that of the first entry whose stem is `image_id_string`.
   */
  method GetImage(access: Access, images_directory: string, camera_id_string: string, image_id_string: string,
                  listing: Option<seq<string>>, opens: string -> bool)
    returns (r: Result<string, ApiError>)
    requires listing.Some? ==> AllEntryNames(listing.value)
    ensures access.Denied? ==> r == Err(access.error)
    ensures access.Granted? && listing.None? ==> r == Err(ListImagesFailed)
    ensures access.Granted? && listing == Some([]) ==> r == Err(NoImages)
    ensures access.Granted? && listing.Some? && listing.value != [] ==>
      var l := listing.value;
      match Position(Stems(l), image_id_string)
      case None => r == Err(ImageNotFound)
      case Some(i) =>
        var path := EntryPath(CameraDirectory(images_directory, camera_id_string), l[i]);
        r == if opens(path) then Ok(path) else Err(LoadImageFailed)
  {
    if access.Denied? {
      return Err(access.error);
    }
    var camera_directory := CameraDirectory(images_directory, camera_id_string);
    var image_list := ListCameraDirectory(listing, false);
    if image_list.Err? {
      return Err(image_list.error);
    }
    var entries := image_list.value;
    var image_list_basenames := Stems(entries);
    var image_index := Position(image_list_basenames, image_id_string);
    if image_index.None? {
      return Err(ImageNotFound);
    }
    var path := EntryPath(camera_directory, entries[image_index.value]);
    if opens(path) {
      r := Ok(path);
    } else {
      r := Err(LoadImageFailed);
    }
  }

  // ---------------------------------------------------------------- upload

  /** The name an image taken at `secs` is stored under. */
  function ImageFileName(secs: U64): (name: string)
    ensures IsEntryName(name) && FileStem(name) == NatToString(secs)
  {
    var id := NatToString(secs);
    DigitsHaveNoDot(id);
    StemOfJpg(id);
    id + ".jpg"
  }

  /** The path `upload_image` streams to: `<images>/<camera id>/<secs>.jpg`. */
  function UploadPath(images_directory: string, camera_id_string: string, secs: U64): (path: string)
    ensures path == EntryPath(CameraDirectory(images_directory, camera_id_string), ImageFileName(secs))
  {
    images_directory + "/" + camera_id_string + "/" + NatToString(secs) + ".jpg"
  }

  /**
   * `upload_image`: streams the body to the camera's directory under the
   * current time and answers that time in decimal, which is the stem of the
   * stored name. The camera id is written with `show` (`Uuid`'s `Display`)
   * and `stored` says whether `stream_to_file` succeeds on a path.
   */
  function UploadImage(images_directory: string, camera_token: CameraTokens.CameraToken, now: U64,
                       show: Uuid -> string, stored: string -> bool)
    : (r: Result<string, ApiError>)
    ensures r.Ok? <==> stored(UploadPath(images_directory, show(camera_token.camera_id), now))
    ensures r.Err? ==> r.error == SaveImageFailed
    ensures r.Ok? ==> IsDigits(r.value) && DecimalValue(r.value) == now
    ensures r.Ok? ==> FileStem(ImageFileName(now)) == r.value
  {
    var path := UploadPath(images_directory, show(camera_token.camera_id), now);
    if stored(path) then
      NatToStringRoundTrip(now);
      Ok(NatToString(now))
    else
      Err(SaveImageFailed)
  }

  /**
   * An image stored by `upload_image` is found by `get_image` under the id
   * the upload answered: some entry with that stem exists, and the one
   * picked is the first such.
   */
  lemma UploadedImageIsFound(entries: seq<string>, secs: U64)
    requires AllEntryNames(entries) && ImageFileName(secs) in entries
    ensures var i := Position(Stems(entries), NatToString(secs));
      i.Some? && FileStem(entries[i.value]) == NatToString(secs)
      && forall j | 0 <= j < i.value :: FileStem(entries[j]) != NatToString(secs)
  {
  }

  /**
   * Names sort as text, not as numbers: images taken at 5, 20 and 100
   * seconds are listed as 100, 20, 5.
   */
  lemma TimestampsSortAsText()
    ensures SortByName(["5.jpg", "20.jpg", "100.jpg"]) == ["100.jpg", "20.jpg", "5.jpg"]
  {
    var a, b, c := "5.jpg", "20.jpg", "100.jpg";
    var r := [c, b, a];
    assert NameLe(c, b) && NameLe(b, a) && NameLe(c, a);
    assert SortedByName(r) by {
      forall i, j | 0 <= i < j < 3 ensures NameLe(r[i], r[j]) {
        if j == 2 && i == 0 { NameLeTransitive(c, b, a); }
      }
    }
    assert multiset(r) == multiset([a, b, c]);
    SortedPermutationUnique(r, SortByName([a, b, c]));
  }
}
