/**
 * Cover selection for archive thumbnails (`Thumbnailer._guess_cover`).
 *
 * The member names are filtered (no `__MACOSX` path component, no "credit"
 * in the lower-cased base name, only image files), sorted in alphanumeric
 * order, and the first name that mentions "cover" or "front" but not "back"
 * is preferred over the first name overall.
 *
 * `os.path.normpath`, `image_tools.is_image_file` and the order used by
 * `tools.alphanumeric_sort` are collaborators and are passed in.
 */
module Cover {
  import opened Text
  import Paths

  // ---------------------------------------------------------------------
  // The filters

  /** Not inside a macOS resource-fork directory. */
  predicate NotMacMeta(name: string, normpath: string -> string) {
    "__MACOSX" !in Paths.Split(normpath(name), Paths.Sep)
  }

  /** The base name does not mention credits, in any ASCII case. */
  predicate NotCredit(name: string) {
    !Contains(Lower(Paths.Basename(name)), "credit")
  }

  predicate Survives(name: string, normpath: string -> string, isImage: string -> bool) {
    NotMacMeta(name, normpath) && NotCredit(name) && isImage(name)
  }

  /**
   * The three lazy filters of `_guess_cover` applied in turn; a name survives
   * all three exactly when it passes each, and the order is kept.
   */
  function Survivors(files: seq<string>, normpath: string -> string, isImage: string -> bool): seq<string>
    decreases |files|
  {
    if |files| == 0 then []
    else
      (if Survives(files[0], normpath, isImage) then [files[0]] else [])
      + Survivors(files[1..], normpath, isImage)
  }

  /** `(cover|front)` searched case-insensitively, and no "back" anywhere in the name. */
  predicate IsCoverName(name: string) {
    (Contains(Lower(name), "cover") || Contains(Lower(name), "front"))
    && !Contains(Lower(name), "back")
  }

  function Candidates(images: seq<string>): seq<string>
    decreases |images|
  {
    if |images| == 0 then []
    else (if IsCoverName(images[0]) then [images[0]] else []) + Candidates(images[1..])
  }

  // ---------------------------------------------------------------------
  // The sort

  /** The order behind `tools.alphanumeric_sort` is a total preorder on names. */
  ghost predicate TotalPreorder(leq: (string, string) -> bool) {
    (forall a, b :: leq(a, b) || leq(b, a)) &&
    (forall a, b, c :: leq(a, b) && leq(b, c) ==> leq(a, c))
  }

  ghost predicate Sorted(s: seq<string>, leq: (string, string) -> bool) {
    forall i, j :: 0 <= i < j < |s| ==> leq(s[i], s[j])
  }

  function Insert(x: string, s: seq<string>, leq: (string, string) -> bool): seq<string>
    decreases |s|
  {
    if |s| == 0 then [x]
    else if leq(x, s[0]) then [x] + s
    else [s[0]] + Insert(x, s[1..], leq)
  }

  /** A stable sort by `leq`, the value `alphanumeric_sort` leaves in the list. */
  function AlphanumericSort(s: seq<string>, leq: (string, string) -> bool): seq<string>
    decreases |s|
  {
    if |s| == 0 then [] else Insert(s[0], AlphanumericSort(s[1..], leq), leq)
  }

  /** `_guess_cover`: None when no name survives the filters. */
  function GuessCover(files: seq<string>, normpath: string -> string, isImage: string -> bool,
                      leq: (string, string) -> bool): Option<string>
  {
    var images := AlphanumericSort(Survivors(files, normpath, isImage), leq);
    var candidates := Candidates(images);
    if |candidates| > 0 then Some(candidates[0])
    else if |images| > 0 then Some(images[0])
    else None
  }

  // ---------------------------------------------------------------------
  // Lemmas

  lemma {:induction false} InsertPermutation(x: string, s: seq<string>, leq: (string, string) -> bool)
    ensures multiset(Insert(x, s, leq)) == multiset(s) + multiset{x}
    decreases |s|
  {
    if |s| > 0 && !leq(x, s[0]) {
      InsertPermutation(x, s[1..], leq);
      assert s == [s[0]] + s[1..];
    }
  }

  /** The sort only reorders. */
  lemma {:induction false} SortPermutation(s: seq<string>, leq: (string, string) -> bool)
    ensures multiset(AlphanumericSort(s, leq)) == multiset(s)
    decreases |s|
  {
    if |s| > 0 {
      SortPermutation(s[1..], leq);
      InsertPermutation(s[0], AlphanumericSort(s[1..], leq), leq);
      assert s == [s[0]] + s[1..];
    }
  }

  lemma {:induction false} InsertSorted(x: string, s: seq<string>, leq: (string, string) -> bool)
    requires TotalPreorder(leq)
    requires Sorted(s, leq)
    ensures Sorted(Insert(x, s, leq), leq)
    decreases |s|
  {
    if |s| > 0 {
      if leq(x, s[0]) {
        var r := [x] + s;
        forall i, j | 0 <= i < j < |r| ensures leq(r[i], r[j]) {
          if i == 0 && j > 1 {
            assert leq(s[0], s[j - 1]);
          }
        }
      } else {
        assert leq(s[0], x);
        var t := Insert(x, s[1..], leq);
        InsertSorted(x, s[1..], leq);
        InsertPermutation(x, s[1..], leq);
        var r := [s[0]] + t;
        forall j | 0 <= j < |t| ensures leq(s[0], t[j]) {
          assert t[j] in multiset(t);
          assert t[j] in multiset(s[1..]) || t[j] == x;
          if t[j] != x {
            var k :| 0 <= k < |s[1..]| && s[1..][k] == t[j];
            assert leq(s[0], s[k + 1]);
          }
        }
        forall i, j | 0 <= i < j < |r| ensures leq(r[i], r[j]) {
          if i == 0 {
            assert r[j] == t[j - 1];
          } else {
            assert r[i] == t[i - 1] && r[j] == t[j - 1];
          }
        }
      }
    }
  }

  /** Under a total preorder the sort's output is in order. */
  lemma {:induction false} SortSorted(s: seq<string>, leq: (string, string) -> bool)
    requires TotalPreorder(leq)
    ensures Sorted(AlphanumericSort(s, leq), leq)
    decreases |s|
  {
    if |s| > 0 {
      SortSorted(s[1..], leq);
      InsertSorted(s[0], AlphanumericSort(s[1..], leq), leq);
    }
  }

  lemma {:induction false} SurvivorsMembers(files: seq<string>, normpath: string -> string, isImage: string -> bool)
    ensures forall x :: x in Survivors(files, normpath, isImage) <==> x in files && Survives(x, normpath, isImage)
    decreases |files|
  {
    if |files| > 0 {
      SurvivorsMembers(files[1..], normpath, isImage);
      assert files == [files[0]] + files[1..];
    }
  }

  lemma {:induction false} CandidatesMembers(images: seq<string>)
    ensures forall x :: x in Candidates(images) <==> x in images && IsCoverName(x)
    decreases |images|
  {
    if |images| > 0 {
      CandidatesMembers(images[1..]);
      assert images == [images[0]] + images[1..];
    }
  }

  /** The first candidate is the first cover name in the list. */
  lemma {:induction false} FirstCandidate(images: seq<string>)
    requires |Candidates(images)| > 0
    ensures exists k :: 0 <= k < |images| && images[k] == Candidates(images)[0] && IsCoverName(images[k])
                        && forall j :: 0 <= j < k ==> !IsCoverName(images[j])
    decreases |images|
  {
    if IsCoverName(images[0]) {
      assert images[0] == Candidates(images)[0];
    } else {
      FirstCandidate(images[1..]);
      var k :| 0 <= k < |images[1..]| && images[1..][k] == Candidates(images[1..])[0] && IsCoverName(images[1..][k])
                && forall j :: 0 <= j < k ==> !IsCoverName(images[1..][j]);
      assert images[k + 1] == Candidates(images)[0];
      forall j | 0 <= j < k + 1 ensures !IsCoverName(images[j]) {
        if j > 0 { assert images[j] == images[1..][j - 1]; }
      }
    }
  }

  /**
   * `_guess_cover` returns None exactly when nothing survives the filters,
   * and otherwise one of the input names that passes all three filters.
   */
  lemma GuessCoverSurvivor(files: seq<string>, normpath: string -> string, isImage: string -> bool,
                           leq: (string, string) -> bool)
    ensures GuessCover(files, normpath, isImage, leq).None? <==> Survivors(files, normpath, isImage) == []
    ensures GuessCover(files, normpath, isImage, leq).Some? ==>
              var r := GuessCover(files, normpath, isImage, leq).value;
              r in Survivors(files, normpath, isImage) && r in files && Survives(r, normpath, isImage)
  {
    SurvivorsMembers(files, normpath, isImage);
    var survivors := Survivors(files, normpath, isImage);
    var images := AlphanumericSort(survivors, leq);
    SortPermutation(survivors, leq);
    CandidatesMembers(images);
    if |Candidates(images)| > 0 {
      assert Candidates(images)[0] in images;
      assert Candidates(images)[0] in multiset(images);
    } else if |images| > 0 {
      assert images[0] in multiset(images);
    } else {
      assert |multiset(survivors)| == 0;
    }
  }

  /**
   * When some survivor is a cover name, the result is a cover name that comes
   * first in alphanumeric order among them; otherwise it is the survivor that
   * comes first among all survivors.
   */
  lemma GuessCoverPrefersCover(files: seq<string>, normpath: string -> string, isImage: string -> bool,
                               leq: (string, string) -> bool)
    requires TotalPreorder(leq)
    requires Survivors(files, normpath, isImage) != []
    ensures var r := GuessCover(files, normpath, isImage, leq);
            var survivors := Survivors(files, normpath, isImage);
            r.Some? &&
            ((exists c :: c in survivors && IsCoverName(c)) ==>
               IsCoverName(r.value) && forall c :: c in survivors && IsCoverName(c) ==> leq(r.value, c)) &&
            ((forall c :: c in survivors ==> !IsCoverName(c)) ==>
               forall c :: c in survivors ==> leq(r.value, c))
  {
    var survivors := Survivors(files, normpath, isImage);
    var images := AlphanumericSort(survivors, leq);
    SortPermutation(survivors, leq);
    SortSorted(survivors, leq);
    CandidatesMembers(images);
    GuessCoverSurvivor(files, normpath, isImage, leq);
    assert forall c :: c in survivors <==> c in images by {
      forall c ensures c in survivors <==> c in images {
        assert c in survivors <==> c in multiset(survivors);
        assert c in images <==> c in multiset(images);
      }
    }
    var r := GuessCover(files, normpath, isImage, leq);
    if |Candidates(images)| > 0 {
      FirstCandidate(images);
      var k :| 0 <= k < |images| && images[k] == Candidates(images)[0] && IsCoverName(images[k])
                && forall j :: 0 <= j < k ==> !IsCoverName(images[j]);
      forall c | c in survivors && IsCoverName(c) ensures leq(r.value, c) {
        var j :| 0 <= j < |images| && images[j] == c;
        if j == k { assert leq(c, c) || leq(c, c); } else { assert k < j; }
      }
    } else {
      forall c | c in survivors ensures leq(r.value, c) {
        var j :| 0 <= j < |images| && images[j] == c;
        if j == 0 { assert leq(c, c) || leq(c, c); }
      }
    }
  }
}
