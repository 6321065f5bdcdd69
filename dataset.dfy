/** The dataset preparation script (BuildingFinderModel/prepare_dataset.py):
    image/mask pairing, the checks that abort the script, the 80/20 split of
    the shuffled pairs and the names the copies are saved under. The
    directory listings are inputs (the base names `sorted(glob(...))`
    yields), the shuffle is any function of the pair list, and the mode of
    each mask image is an input. */
module Dataset {
  import opened Wrappers
  import Text
  import Seqs

  const ImagesDir: string := "../MapParser/tiles/images"
  const MasksDir: string := "../MapParser/tiles/masks"
  const TrainDir: string := "train"
  const TestDir: string := "test"

  /** `(img_path, mask_path)`. */
  datatype Pair = Pair(image: string, mask: string)

  /** The pair for image file `name`: the mask of the same name. */
  function PairOf(name: string): Pair {
    Pair(ImagesDir + "/" + name, MasksDir + "/" + name)
  }

  // ---------------------------------------------------------------------
  // Pairing.

  /** The pairs for the images whose mask exists, in image order. */
  function Pairs(images: seq<string>, masks: seq<string>): (r: seq<Pair>)
    ensures |r| <= |images|
  {
    if images == [] then []
    else
      var last := images[|images| - 1];
      Pairs(images[..|images| - 1], masks) + (if last in masks then [PairOf(last)] else [])
  }

  /** Pairing splits over a concatenation of listings: the pairs keep the
      order of the images they come from. */
  lemma {:induction false} PairsAppend(a: seq<string>, b: seq<string>, masks: seq<string>)
    ensures Pairs(a + b, masks) == Pairs(a, masks) + Pairs(b, masks)
    decreases |b|
  {
    if b == [] {
      assert a + b == a;
    } else {
      var init := b[..|b| - 1];
      assert (a + b)[..|a + b| - 1] == a + init;
      PairsAppend(a, init, masks);
    }
  }

  /** A pair is formed exactly for an image whose mask exists. */
  lemma {:induction false} PairsMembers(images: seq<string>, masks: seq<string>, p: Pair)
    ensures p in Pairs(images, masks) <==>
      exists k | 0 <= k < |images| :: images[k] in masks && p == PairOf(images[k])
  {
    if images != [] {
      var init := images[..|images| - 1];
      PairsMembers(init, masks, p);
      assert forall k | 0 <= k < |init| :: init[k] == images[k];
      if p in Pairs(images, masks) && p !in Pairs(init, masks) {
        assert images[|images| - 1] in masks && p == PairOf(images[|images| - 1]);
      }
    }
  }

  /** Every image is paired exactly when every image has its mask. */
  lemma {:induction false} PairsAll(images: seq<string>, masks: seq<string>)
    ensures |Pairs(images, masks)| == |images| <==> forall k | 0 <= k < |images| :: images[k] in masks
  {
    if images != [] {
      var init := images[..|images| - 1];
      PairsAll(init, masks);
      assert forall k | 0 <= k < |init| :: init[k] == images[k];
    }
  }

  /** The `for img_path in image_files` loop. */
  method PairFiles(images: seq<string>, masks: seq<string>) returns (pairs: seq<Pair>)
    ensures pairs == Pairs(images, masks)
  {
    pairs := [];
    for n := 0 to |images|
      invariant pairs == Pairs(images[..n], masks)
    {
      assert images[..n + 1][..n] == images[..n];
      var name := images[n];
      if name in masks {
        pairs := pairs + [PairOf(name)];
      }
    }
    assert images[..|images|] == images;
  }

  // ---------------------------------------------------------------------
  // The split.

  /** `int(len(pairs) * 0.8)`: for every list length a script handles, the
      float product lies within a rounding error of `4n/5`, which is an
      integer or at least 0.2 away from one, so the truncation is
      `floor(4n/5)`. */
  function SplitIndex(n: nat): (k: nat)
    ensures k <= n
    ensures 5 * k <= 4 * n < 5 * k + 5
  {
    (4 * n) / 5
  }

  /** For five or more pairs both halves are non-empty. */
  lemma SplitBothSides(n: nat)
    requires n >= 5
    ensures 0 < SplitIndex(n) < n
  {
  }

  // ---------------------------------------------------------------------
  // The copies.

  /** `f"{index:05d}_image.tif"` and `f"{index:05d}_label.tif"`. */
  function ImageName(index: nat): string { Text.ZeroPadded(index, 5) + "_image.tif" }
  function LabelName(index: nat): string { Text.ZeroPadded(index, 5) + "_label.tif" }

  /** What `convert_and_copy` writes: the two destination paths, and whether
      the mask was converted to mode 'L' first. */
  datatype Copy = Copy(source: Pair, index: nat, imagePath: string, labelPath: string, convertedMask: bool)

  function ConvertAndCopy(source: Pair, dir: string, index: nat, maskMode: string): (c: Copy)
    ensures c.convertedMask <==> maskMode != "L"
  {
    Copy(source, index, dir + "/" + ImageName(index), dir + "/" + LabelName(index), maskMode != "L")
  }

  /** The copy of `source` under index `index` records both, and writes
      `dir/NNNNN_image.tif` and `dir/NNNNN_label.tif`, the number being the
      index in five or more digits. */
  lemma CopyNames(source: Pair, dir: string, index: nat, maskMode: string)
    ensures var c := ConvertAndCopy(source, dir, index, maskMode);
      c.source == source && c.index == index &&
      c.imagePath == dir + "/" + Text.ZeroPadded(index, 5) + "_image.tif" &&
      c.labelPath == dir + "/" + Text.ZeroPadded(index, 5) + "_label.tif"
  {
  }

  /** The copies of `pairs` with indices from `start` on, in order. */
  function Copies(pairs: seq<Pair>, dir: string, start: nat, maskMode: Pair -> string): (r: seq<Copy>)
    ensures |r| == |pairs|
    ensures forall k | 0 <= k < |pairs| :: r[k].source == pairs[k]
  {
    seq(|pairs|, k requires 0 <= k < |pairs| => ConvertAndCopy(pairs[k], dir, start + k, maskMode(pairs[k])))
  }

  /** Copy k is pair k converted and copied under index start + k. */
  lemma CopyPaths(pairs: seq<Pair>, dir: string, start: nat, maskMode: Pair -> string, k: nat)
    requires k < |pairs|
    ensures var c := Copies(pairs, dir, start, maskMode)[k];
      c == ConvertAndCopy(pairs[k], dir, start + k, maskMode(pairs[k])) &&
      c.index == start + k && (c.convertedMask <==> maskMode(pairs[k]) != "L") &&
      c.imagePath == dir + "/" + ImageName(start + k) && c.labelPath == dir + "/" + LabelName(start + k)
  {
  }

  /** The `for idx, (img_path, mask_path) in enumerate(...)` loops. */
  method CopyPairs(pairs: seq<Pair>, dir: string, start: nat, maskMode: Pair -> string) returns (copies: seq<Copy>)
    ensures copies == Copies(pairs, dir, start, maskMode)
  {
    copies := [];
    for idx := 0 to |pairs|
      invariant copies == Copies(pairs[..idx], dir, start, maskMode)
    {
      copies := copies + [ConvertAndCopy(pairs[idx], dir, start + idx, maskMode(pairs[idx]))];
    }
    assert pairs[..|pairs|] == pairs;
  }

  /** Two names of the form `digits + suffix` with the same suffix have the
      same digits. */
  lemma SameSuffix(a: string, b: string, suffix: string)
    requires a + suffix == b + suffix
    ensures a == b
  {
    assert |a| == |b|;
    assert a == (a + suffix)[..|a|];
    assert b == (b + suffix)[..|b|];
  }

  /** Different indices give different file names, and an image name is
      never a label name. */
  lemma NamesDistinct(i: nat, j: nat)
    ensures ImageName(i) == ImageName(j) ==> i == j
    ensures LabelName(i) == LabelName(j) ==> i == j
    ensures ImageName(i) != LabelName(j)
  {
    if ImageName(i) == ImageName(j) {
      SameSuffix(Text.ZeroPadded(i, 5), Text.ZeroPadded(j, 5), "_image.tif");
      Text.ZeroPaddedInjective(i, j, 5);
    }
    if LabelName(i) == LabelName(j) {
      SameSuffix(Text.ZeroPadded(i, 5), Text.ZeroPadded(j, 5), "_label.tif");
      Text.ZeroPaddedInjective(i, j, 5);
    }
    var a, b := ImageName(i), LabelName(j);
    if |a| == |b| {
      assert a[|a| - 5] == 'e' && b[|b| - 5] == 'l';
    }
  }

  function Pow10(k: nat): (p: nat)
    ensures p >= 1
  {
    if k == 0 then 1 else 10 * Pow10(k - 1)
  }

  /** Below 100000 every index is written with exactly five digits, so all
      names of a run have the same length. */
  lemma FiveDigits(n: nat)
    requires n < 100000
    ensures |Text.ZeroPadded(n, 5)| == 5
  {
    assert Pow10(5) == 100000;
    NatToStringLength(n, 5);
  }

  lemma {:induction false} NatToStringLength(n: nat, k: nat)
    requires k >= 1 && n < Pow10(k)
    ensures |Text.NatToString(n)| <= k
  {
    if n >= 10 {
      assert k >= 2;
      NatToStringLength(n / 10, k - 1);
    }
  }

  // ---------------------------------------------------------------------
  // The script.

  /** How `main` ends: one of the four checks that return early, the
      ZeroDivisionError of the percentage printout when no image has its
      mask, or the copies written to `train/` and `test/`. */
  datatype Outcome =
    | MissingImagesDir
    | MissingMasksDir
    | CountMismatch
    | NoImages
    | NoPairs
    | Prepared(train: seq<Copy>, test: seq<Copy>)

  /** `main`, with the existence of the two directories, their sorted
      listings, the shuffle and the mask modes as inputs. */
  function Prepare(imagesExist: bool, masksExist: bool, images: seq<string>, masks: seq<string>,
                   shuffle: seq<Pair> -> seq<Pair>, maskMode: Pair -> string): (r: Outcome)
    ensures r.MissingImagesDir? <==> !imagesExist
    ensures r.MissingMasksDir? <==> imagesExist && !masksExist
    ensures r.CountMismatch? <==> imagesExist && masksExist && |images| != |masks|
    ensures r.NoImages? <==> imagesExist && masksExist && |images| == |masks| == 0
    ensures r.NoPairs? <==> imagesExist && masksExist && |images| == |masks| > 0 && shuffle(Pairs(images, masks)) == []
    ensures r.Prepared? ==> |r.train| + |r.test| == |shuffle(Pairs(images, masks))|
  {
    if !imagesExist then MissingImagesDir
    else if !masksExist then MissingMasksDir
    else if |images| != |masks| then CountMismatch
    else if |images| == 0 then NoImages
    else
      var pairs := Pairs(images, masks);
      var shuffled := shuffle(pairs);
      var k := SplitIndex(|shuffled|);
      if |shuffled| == 0 then NoPairs
      else
        Prepared(Copies(shuffled[..k], TrainDir, 0, maskMode),
                 Copies(shuffled[k..], TestDir, k, maskMode))
  }

  /** The train copies followed by the test copies are the shuffled pairs,
      the first `floor(4n/5)` of them in `train/`; with a shuffle that is a
      permutation, every pair is copied exactly once. */
  lemma PreparedSplit(imagesExist: bool, masksExist: bool, images: seq<string>, masks: seq<string>,
                      shuffle: seq<Pair> -> seq<Pair>, maskMode: Pair -> string)
    requires multiset(shuffle(Pairs(images, masks))) == multiset(Pairs(images, masks))
    requires Prepare(imagesExist, masksExist, images, masks, shuffle, maskMode).Prepared?
    ensures var r := Prepare(imagesExist, masksExist, images, masks, shuffle, maskMode);
      var n := |Pairs(images, masks)|;
      |r.train| == SplitIndex(n) &&
      Sources(r.train + r.test) == shuffle(Pairs(images, masks)) &&
      multiset(Sources(r.train + r.test)) == multiset(Pairs(images, masks))
  {
    var shuffled := shuffle(Pairs(images, masks));
    assert |shuffled| == |multiset(shuffled)|;
    PreparedCopies(imagesExist, masksExist, images, masks, shuffle, maskMode);
    SplitSources(shuffled, SplitIndex(|shuffled|), maskMode);
  }

  /** A prepared run copies the first `SplitIndex` shuffled pairs to
      `train/` from index 0 and the rest to `test/` from there on. */
  lemma PreparedCopies(imagesExist: bool, masksExist: bool, images: seq<string>, masks: seq<string>,
                       shuffle: seq<Pair> -> seq<Pair>, maskMode: Pair -> string)
    requires Prepare(imagesExist, masksExist, images, masks, shuffle, maskMode).Prepared?
    ensures var shuffled := shuffle(Pairs(images, masks));
      var k := SplitIndex(|shuffled|);
      Prepare(imagesExist, masksExist, images, masks, shuffle, maskMode) ==
        Prepared(Copies(shuffled[..k], TrainDir, 0, maskMode), Copies(shuffled[k..], TestDir, k, maskMode))
  {
  }

  /** The copies of the two halves of a sequence read back as the sequence. */
  lemma SplitSources(shuffled: seq<Pair>, k: nat, maskMode: Pair -> string)
    requires k <= |shuffled|
    ensures Sources(Copies(shuffled[..k], TrainDir, 0, maskMode) + Copies(shuffled[k..], TestDir, k, maskMode)) == shuffled
  {
    var train, test := Copies(shuffled[..k], TrainDir, 0, maskMode), Copies(shuffled[k..], TestDir, k, maskMode);
    var both := Sources(train + test);
    assert |both| == |shuffled|;
    forall j | 0 <= j < |shuffled|
      ensures both[j] == shuffled[j]
    {
      if j < k {
        assert (train + test)[j] == train[j];
      } else {
        assert (train + test)[j] == test[j - k];
      }
    }
  }

  function Sources(copies: seq<Copy>): (r: seq<Pair>)
    ensures |r| == |copies| && forall k | 0 <= k < |copies| :: r[k] == copies[k].source
  {
    seq(|copies|, k requires 0 <= k < |copies| => copies[k].source)
  }

  /** Train copy `k` is saved as `train/k_image.tif`, test copy `k` as
      `test/(|train| + k)_image.tif`; so the indices run over `0..n-1`
      without a repeat, and no two copies share a file name even across the
      two directories. */
  lemma PreparedNames(imagesExist: bool, masksExist: bool, images: seq<string>, masks: seq<string>,
                      shuffle: seq<Pair> -> seq<Pair>, maskMode: Pair -> string)
    requires Prepare(imagesExist, masksExist, images, masks, shuffle, maskMode).Prepared?
    ensures var r := Prepare(imagesExist, masksExist, images, masks, shuffle, maskMode);
      (forall k | 0 <= k < |r.train| :: r.train[k].index == k) &&
      (forall k | 0 <= k < |r.test| :: r.test[k].index == |r.train| + k) &&
      (forall c | c in r.train :: c.imagePath == TrainDir + "/" + ImageName(c.index) &&
                                  c.labelPath == TrainDir + "/" + LabelName(c.index)) &&
      (forall c | c in r.test :: c.imagePath == TestDir + "/" + ImageName(c.index) &&
                                 c.labelPath == TestDir + "/" + LabelName(c.index))
    ensures var r := Prepare(imagesExist, masksExist, images, masks, shuffle, maskMode);
      forall i, j | 0 <= i < |r.train| && 0 <= j < |r.test| ::
        r.train[i].index != r.test[j].index && ImageName(r.train[i].index) != ImageName(r.test[j].index)
  {
    var shuffled := shuffle(Pairs(images, masks));
    PreparedCopies(imagesExist, masksExist, images, masks, shuffle, maskMode);
    SplitNames(shuffled, SplitIndex(|shuffled|), maskMode);
  }

  /** The names of the copies of the two halves of a sequence. */
  lemma SplitNames(shuffled: seq<Pair>, k: nat, maskMode: Pair -> string)
    requires k <= |shuffled|
    ensures var train, test := Copies(shuffled[..k], TrainDir, 0, maskMode), Copies(shuffled[k..], TestDir, k, maskMode);
      (forall j | 0 <= j < |train| :: train[j].index == j) &&
      (forall j | 0 <= j < |test| :: test[j].index == |train| + j) &&
      (forall c | c in train :: c.imagePath == TrainDir + "/" + ImageName(c.index) &&
                                c.labelPath == TrainDir + "/" + LabelName(c.index)) &&
      (forall c | c in test :: c.imagePath == TestDir + "/" + ImageName(c.index) &&
                               c.labelPath == TestDir + "/" + LabelName(c.index)) &&
      forall i, j | 0 <= i < |train| && 0 <= j < |test| ::
        train[i].index != test[j].index && ImageName(train[i].index) != ImageName(test[j].index)
  {
    var train, test := Copies(shuffled[..k], TrainDir, 0, maskMode), Copies(shuffled[k..], TestDir, k, maskMode);
    forall i, j | 0 <= i < |train| && 0 <= j < |test|
      ensures ImageName(train[i].index) != ImageName(test[j].index)
    {
      NamesDistinct(train[i].index, test[j].index);
    }
  }

  /** With a shuffle that keeps the pairs, the script crashes exactly when
      no image has its mask. */
  lemma NoPairsExactly(imagesExist: bool, masksExist: bool, images: seq<string>, masks: seq<string>,
                       shuffle: seq<Pair> -> seq<Pair>, maskMode: Pair -> string)
    requires multiset(shuffle(Pairs(images, masks))) == multiset(Pairs(images, masks))
    ensures Prepare(imagesExist, masksExist, images, masks, shuffle, maskMode).NoPairs? <==>
      imagesExist && masksExist && |images| == |masks| > 0 && Pairs(images, masks) == []
  {
    var p := Pairs(images, masks);
    assert |shuffle(p)| == |multiset(shuffle(p))| == |multiset(p)| == |p|;
  }

  /** Two copies into one directory under different indices write four
      different files. */
  lemma CopyPathsDistinct(p: Pair, q: Pair, dir: string, i: nat, j: nat, m: string, n: string)
    requires i != j
    ensures var c, d := ConvertAndCopy(p, dir, i, m), ConvertAndCopy(q, dir, j, n);
      c.imagePath != d.imagePath && c.labelPath != d.labelPath && c.imagePath != d.labelPath
  {
    NamesDistinct(i, j);
    var c, d := ConvertAndCopy(p, dir, i, m), ConvertAndCopy(q, dir, j, n);
    if c.imagePath == d.imagePath {
      Seqs.DropPrefix(dir + "/", ImageName(i), ImageName(j));
    }
    if c.labelPath == d.labelPath {
      Seqs.DropPrefix(dir + "/", LabelName(i), LabelName(j));
    }
    if c.imagePath == d.labelPath {
      Seqs.DropPrefix(dir + "/", ImageName(i), LabelName(j));
    }
  }

  /** Within one directory the copies have pairwise different file names. */
  lemma CopiesDistinct(pairs: seq<Pair>, dir: string, start: nat, maskMode: Pair -> string, i: nat, j: nat)
    requires i < j < |pairs|
    ensures var c := Copies(pairs, dir, start, maskMode);
      c[i].imagePath != c[j].imagePath && c[i].labelPath != c[j].labelPath && c[i].imagePath != c[j].labelPath
  {
    CopyPathsDistinct(pairs[i], pairs[j], dir, start + i, start + j, maskMode(pairs[i]), maskMode(pairs[j]));
  }


  /** Equal listings whose names all differ give the zero-division crash
      (the percentage of line 113), not a message. */
  lemma UnmatchedNamesCrash(shuffle: seq<Pair> -> seq<Pair>, maskMode: Pair -> string)
    requires shuffle([]) == []
    ensures Prepare(true, true, ["a.png"], ["b.png"], shuffle, maskMode) == NoPairs
  {
    assert Pairs(["a.png"], ["b.png"]) == [];
  }

  /** `main`, step by step. */
  method PrepareDataset(imagesExist: bool, masksExist: bool, images: seq<string>, masks: seq<string>,
                        shuffle: seq<Pair> -> seq<Pair>, maskMode: Pair -> string) returns (r: Outcome)
    ensures r == Prepare(imagesExist, masksExist, images, masks, shuffle, maskMode)
  {
    if !imagesExist {
      return MissingImagesDir;
    }
    if !masksExist {
      return MissingMasksDir;
    }
    if |images| != |masks| {
      return CountMismatch;
    }
    if |images| == 0 {
      return NoImages;
    }
    var pairs := PairFiles(images, masks);
    pairs := shuffle(pairs);
    var splitIdx := SplitIndex(|pairs|);
    var trainPairs, testPairs := pairs[..splitIdx], pairs[splitIdx..];
    if |pairs| == 0 {
      return NoPairs;
    }
    var train := CopyPairs(trainPairs, TrainDir, 0, maskMode);
    var startIdx := |trainPairs|;
    var test := CopyPairs(testPairs, TestDir, startIdx, maskMode);
    return Prepared(train, test);
  }
}
