/**
 * Path handling of the alignment analysis: splitting a path on forward and
 * back slashes, reading the image class/name and the model
 * architecture/experiment/file name from the trailing components, and
 * building the output directory with POSIX path joining.
 */
module Paths {
  import opened Outcomes

  /** The characters the analysis splits paths on: '/' and '\'. */
  predicate IsSeparator(ch: char) {
    ch == '/' || ch == '\\'
  }

  predicate NoSeparator(s: string) {
    forall i :: 0 <= i < |s| ==> !IsSeparator(s[i])
  }

  predicate AllSeparators(cs: seq<char>) {
    forall i :: 0 <= i < |cs| ==> IsSeparator(cs[i])
  }

  /**
   * Splitting on the pattern `\\|/`: the pieces between separators, in
   * order, empty pieces included (a leading separator gives a leading "").
   */
  function Split(s: string): (segs: seq<string>)
    ensures |segs| >= 1
    decreases |s|
  {
    if s == [] then [""]
    else
      var rest := Split(s[1..]);
      if IsSeparator(s[0]) then [""] + rest
      else [[s[0]] + rest[0]] + rest[1..]
  }

  /** The separators of `s`, in order; with Split it recovers `s` (RejoinSplit). */
  function Separators(s: string): (cs: seq<char>)
    ensures AllSeparators(cs)
    decreases |s|
  {
    if s == [] then []
    else if IsSeparator(s[0]) then [s[0]] + Separators(s[1..])
    else Separators(s[1..])
  }

  /**
   * The segments hold no separator, there is one more segment than there
   * are separators, and only a path without separators is a single segment.
   */
  lemma {:induction false} SplitFacts(s: string)
    ensures forall k :: 0 <= k < |Split(s)| ==> NoSeparator(Split(s)[k])
    ensures |Split(s)| == |Separators(s)| + 1
    ensures |Split(s)| == 1 <==> NoSeparator(s)
    decreases |s|
  {
    if s != [] {
      SplitFacts(s[1..]);
      var rest := Split(s[1..]);
      if !IsSeparator(s[0]) {
        var head := [s[0]] + rest[0];
        assert NoSeparator(head) by {
          forall i | 0 <= i < |head| ensures !IsSeparator(head[i]) {
            if i > 0 { assert head[i] == rest[0][i - 1]; }
          }
        }
        assert Split(s) == [head] + rest[1..];
        assert NoSeparator(s) <==> NoSeparator(s[1..]) by {
          if NoSeparator(s[1..]) {
            forall i | 0 <= i < |s| ensures !IsSeparator(s[i]) {
              if i > 0 { assert s[i] == s[1..][i - 1]; }
            }
          }
        }
      } else {
        assert Split(s) == [""] + rest;
      }
    }
  }

  /** Segments interleaved with separators: `segs[0] + seps[0] + segs[1] + …`. */
  function Rejoin(segs: seq<string>, seps: seq<char>): (path: string)
    requires |segs| == |seps| + 1
    decreases |seps|
  {
    if seps == [] then segs[0]
    else segs[0] + [seps[0]] + Rejoin(segs[1..], seps[1..])
  }

  /** Prefixing the first segment with a character prefixes the whole rejoined path with it. */
  lemma RejoinConsFirst(c: char, head: string, rest: seq<string>, seps: seq<char>)
    requires |rest| == |seps|
    ensures Rejoin([[c] + head] + rest, seps) == [c] + Rejoin([head] + rest, seps)
  {
    if seps != [] {
      var r := Rejoin(rest, seps[1..]);
      assert ([[c] + head] + rest)[1..] == rest;
      assert ([head] + rest)[1..] == rest;
      PrefixAssoc(c, head, seps[0], r);
    }
  }

  lemma PrefixAssoc(c: char, head: string, sep: char, r: string)
    ensures (([c] + head) + [sep]) + r == [c] + ((head + [sep]) + r)
  {
  }

  /** Splitting loses nothing: the segments and separators give back the path. */
  lemma {:induction false} RejoinSplit(s: string)
    ensures |Split(s)| == |Separators(s)| + 1 && Rejoin(Split(s), Separators(s)) == s
    decreases |s|
  {
    SplitFacts(s);
    if s != [] {
      SplitFacts(s[1..]);
      RejoinSplit(s[1..]);
      var rest := Split(s[1..]);
      if IsSeparator(s[0]) {
        assert ([""] + rest)[1..] == rest;
        assert s == [s[0]] + s[1..];
      } else {
        assert rest == [rest[0]] + rest[1..];
        RejoinConsFirst(s[0], rest[0], rest[1..], Separators(s[1..]));
        assert s == [s[0]] + s[1..];
      }
    }
  }

  /** One step of Split: a leading separator closes an empty first segment. */
  lemma SplitConsSeparator(a: char, x: string)
    requires IsSeparator(a)
    ensures Split([a] + x) == [""] + Split(x)
  {
    assert ([a] + x)[1..] == x;
  }

  /** One step of Split: any other leading character opens the first segment. */
  lemma SplitConsPlain(a: char, x: string)
    requires !IsSeparator(a)
    ensures Split([a] + x) == [[a] + Split(x)[0]] + Split(x)[1..]
  {
    assert ([a] + x)[1..] == x;
  }

  /** Re-associating a leading segment in front of a concatenation of segment lists. */
  lemma ConsSegments(h: string, r: seq<string>, st: seq<string>)
    ensures [h] + (r + st) == ([h] + r) + st
  {
  }

  /** Extending the first segment of `r + st` extends the first segment of `r`. */
  lemma ExtendFirstSegment(a: char, r: seq<string>, st: seq<string>)
    requires |r| >= 1
    ensures [[a] + (r + st)[0]] + (r + st)[1..] == ([[a] + r[0]] + r[1..]) + st
  {
    assert (r + st)[0] == r[0];
    assert (r + st)[1..] == r[1..] + st;
  }

  /** The inductive step of SplitAround when the new first character is a separator. */
  lemma SplitAroundStepSeparator(a: char, u: string, x: string, st: seq<string>)
    requires IsSeparator(a)
    requires Split(x) == Split(u) + st
    ensures Split([a] + x) == Split([a] + u) + st
  {
    SplitConsSeparator(a, x);
    SplitConsSeparator(a, u);
    ConsSegments("", Split(u), st);
  }

  /** The inductive step of SplitAround when the new first character extends the first segment. */
  lemma SplitAroundStepPlain(a: char, u: string, x: string, st: seq<string>)
    requires !IsSeparator(a)
    requires Split(x) == Split(u) + st
    ensures Split([a] + x) == Split([a] + u) + st
  {
    SplitConsPlain(a, x);
    SplitConsPlain(a, u);
    ExtendFirstSegment(a, Split(u), st);
  }

  /** A separator cuts a path into the split of what precedes it and the split of what follows. */
  lemma {:induction false} SplitAround(u: string, c: char, t: string)
    requires IsSeparator(c)
    ensures Split(u + [c] + t) == Split(u) + Split(t)
    decreases |u|
  {
    if u == [] {
      assert u + [c] + t == [c] + t;
      SplitConsSeparator(c, t);
    } else {
      SplitAround(u[1..], c, t);
      var x := u[1..] + [c] + t;
      assert u + [c] + t == [u[0]] + x;
      if IsSeparator(u[0]) {
        SplitAroundStepSeparator(u[0], u[1..], x, Split(t));
      } else {
        SplitAroundStepPlain(u[0], u[1..], x, Split(t));
      }
      assert [u[0]] + u[1..] == u;
    }
  }

  lemma {:induction false} SeparatorsAround(u: string, c: char, t: string)
    requires IsSeparator(c)
    ensures Separators(u + [c] + t) == Separators(u) + [c] + Separators(t)
    decreases |u|
  {
    var s := u + [c] + t;
    if u == [] {
      assert s == [c] + t;
      assert s[1..] == t;
    } else {
      assert s[0] == u[0];
      assert s[1..] == u[1..] + [c] + t;
      SeparatorsAround(u[1..], c, t);
    }
  }

  lemma SplitNoSeparator(x: string)
    requires NoSeparator(x)
    ensures Split(x) == [x]
  {
    SplitFacts(x);
    RejoinSplit(x);
  }

  /** Splitting undoes Rejoin when the segments hold no separator. */
  lemma {:induction false} SplitRejoin(segs: seq<string>, seps: seq<char>)
    requires |segs| == |seps| + 1
    requires forall k :: 0 <= k < |segs| ==> NoSeparator(segs[k])
    requires AllSeparators(seps)
    ensures Split(Rejoin(segs, seps)) == segs
    ensures Separators(Rejoin(segs, seps)) == seps
    decreases |seps|
  {
    SplitNoSeparator(segs[0]);
    SplitFacts(segs[0]);
    if seps != [] {
      SplitRejoin(segs[1..], seps[1..]);
      SplitAround(segs[0], seps[0], Rejoin(segs[1..], seps[1..]));
      SeparatorsAround(segs[0], seps[0], Rejoin(segs[1..], seps[1..]));
      assert segs == [segs[0]] + segs[1..];
      assert seps == [seps[0]] + seps[1..];
    }
  }

  /** Class directory and file name of the test image. */
  datatype ImageInfo = ImageInfo(imgClass: string, imgName: string)

  /** Architecture directory, experiment-run directory and checkpoint file name of the model. */
  datatype ModelInfo = ModelInfo(architecture: string, experimentRun: string, modelName: string)

  datatype ParseError =
    | TooFewSegments(needed: nat, found: nat)  // unpacking `[-k:]` of a shorter list
    | NoDigitRun(modelName: string)             // `re.search` found no match

  /** The last two segments of the image path, as (class, image name). */
  function ParseImagePath(path: string): (r: Result<ImageInfo, ParseError>)
    ensures r.Success? <==> !NoSeparator(path)
    ensures r.Failure? ==> r.error == TooFewSegments(2, 1)
    ensures r.Success? ==> NoSeparator(r.value.imgClass) && NoSeparator(r.value.imgName)
  {
    SplitFacts(path);
    var segs := Split(path);
    if |segs| < 2 then Failure(TooFewSegments(2, |segs|))
    else Success(ImageInfo(segs[|segs| - 2], segs[|segs| - 1]))
  }

  /** Whatever precedes them, the last two components of a path are its class and image name. */
  lemma ParseImagePathOfRejoin(prefix: seq<string>, imgClass: string, imgName: string, seps: seq<char>)
    requires |seps| == |prefix| + 1
    requires forall k :: 0 <= k < |prefix| ==> NoSeparator(prefix[k])
    requires NoSeparator(imgClass) && NoSeparator(imgName) && AllSeparators(seps)
    ensures ParseImagePath(Rejoin(prefix + [imgClass, imgName], seps)) == Success(ImageInfo(imgClass, imgName))
  {
    var segs := prefix + [imgClass, imgName];
    SplitRejoin(segs, seps);
  }

  /**
   * The last four segments of the model path: architecture, experiment run,
   * a discarded directory (`checkpoints` by convention) and the model file name.
   */
  function ParseModelPath(path: string): (r: Result<ModelInfo, ParseError>)
    ensures r.Success? <==> |Separators(path)| >= 3
    ensures r.Failure? ==> r.error.TooFewSegments? && r.error.needed == 4 && r.error.found == |Separators(path)| + 1
    ensures r.Success? ==> NoSeparator(r.value.architecture) && NoSeparator(r.value.experimentRun)
                           && NoSeparator(r.value.modelName)
  {
    SplitFacts(path);
    var segs := Split(path);
    if |segs| < 4 then Failure(TooFewSegments(4, |segs|))
    else Success(ModelInfo(segs[|segs| - 4], segs[|segs| - 3], segs[|segs| - 1]))
  }

  /** The third-from-last component is ignored, whatever it is. */
  lemma ParseModelPathOfRejoin(prefix: seq<string>, arch: string, run: string, ignored: string,
                               modelName: string, seps: seq<char>)
    requires |seps| == |prefix| + 3
    requires forall k :: 0 <= k < |prefix| ==> NoSeparator(prefix[k])
    requires NoSeparator(arch) && NoSeparator(run) && NoSeparator(ignored) && NoSeparator(modelName)
    requires AllSeparators(seps)
    ensures ParseModelPath(Rejoin(prefix + [arch, run, ignored, modelName], seps))
            == Success(ModelInfo(arch, run, modelName))
  {
    var segs := prefix + [arch, run, ignored, modelName];
    SplitRejoin(segs, seps);
  }

  /**
   * POSIX `os.path.join(path, *parts)`: a part starting with '/' replaces
   * everything before it; otherwise it is appended, after a '/' unless the
   * path so far is empty or already ends in '/'.
   */
  function JoinPath(path: string, parts: seq<string>): (joined: string)
    decreases |parts|
  {
    if parts == [] then path
    else
      var b := parts[0];
      var next :=
        if |b| > 0 && b[0] == '/' then b
        else if path == [] || path[|path| - 1] == '/' then path + b
        else path + "/" + b;
      JoinPath(next, parts[1..])
  }

  /** One step of JoinPath for a part that is not absolute, onto a path not ending in '/'. */
  lemma JoinPathStep(path: string, parts: seq<string>)
    requires path != [] && path[|path| - 1] != '/'
    requires parts != [] && (parts[0] == [] || parts[0][0] != '/')
    ensures JoinPath(path, parts) == JoinPath(path + "/" + parts[0], parts[1..])
  {
  }

  /** Appending '/' and a non-empty separator-free part leaves a path that does not end in '/'. */
  lemma AppendPart(path: string, b: string)
    requires b != [] && NoSeparator(b)
    ensures b[0] != '/'
    ensures (path + "/" + b) != [] && (path + "/" + b)[|path + "/" + b| - 1] != '/'
  {
    assert (path + "/" + b)[|path + "/" + b| - 1] == b[|b| - 1];
    assert !IsSeparator(b[|b| - 1]) && !IsSeparator(b[0]);
  }

  /** Appending '/' and a separator-free part adds that part as one new segment. */
  lemma SplitAppendPart(path: string, b: string)
    requires NoSeparator(b)
    ensures Split(path + "/" + b) == Split(path) + [b]
  {
    SplitAround(path, '/', b);
    SplitNoSeparator(b);
  }

  lemma AppendSegments(front: seq<string>, parts: seq<string>)
    requires parts != []
    ensures (front + [parts[0]]) + parts[1..] == front + parts
  {
    assert parts == [parts[0]] + parts[1..];
  }

  /**
   * Joining non-empty, separator-free parts onto a path that does not end in
   * '/' adds exactly those parts, in order, to the path's segments.
   */
  lemma {:induction false} JoinPathSplit(path: string, parts: seq<string>)
    requires path != [] && path[|path| - 1] != '/'
    requires forall k :: 0 <= k < |parts| ==> parts[k] != [] && NoSeparator(parts[k])
    ensures Split(JoinPath(path, parts)) == Split(path) + parts
    decreases |parts|
  {
    if parts == [] {
      assert Split(path) + parts == Split(path);
    } else {
      var b, rest := parts[0], parts[1..];
      var next := path + "/" + b;
      AppendPart(path, b);
      JoinPathStep(path, parts);
      JoinPathSplit(next, rest);
      SplitAppendPart(path, b);
      AppendSegments(Split(path), parts);
    }
  }

  /** The components under the output root, in order: `arch/experiment/model_name/alignment/class/image`. */
  function OutputParts(model: ModelInfo, image: ImageInfo): (parts: seq<string>) {
    [model.architecture, model.experimentRun, model.modelName, "alignment", image.imgClass, image.imgName]
  }

  /** `os.path.join(out, arch, experiment, model_name, 'alignment', class, image)`. */
  function OutputDir(out: string, model: ModelInfo, image: ImageInfo): (dir: string) {
    JoinPath(out, OutputParts(model, image))
  }

  /** The conditions on the components under which each becomes one level of the output directory. */
  predicate PlainComponents(model: ModelInfo, image: ImageInfo) {
    && model.architecture != [] && model.experimentRun != [] && model.modelName != []
    && image.imgClass != [] && image.imgName != []
    && NoSeparator(model.architecture) && NoSeparator(model.experimentRun) && NoSeparator(model.modelName)
    && NoSeparator(image.imgClass) && NoSeparator(image.imgName)
  }

  /** The conditions under which the output directory is the root plus one '/'-separated level per component. */
  predicate PlainLayout(out: string, model: ModelInfo, image: ImageInfo) {
    && out != [] && out[|out| - 1] != '/'
    && PlainComponents(model, image)
  }

  lemma PlainParts(model: ModelInfo, image: ImageInfo)
    requires PlainComponents(model, image)
    ensures forall k :: 0 <= k < 6 ==> OutputParts(model, image)[k] != [] && NoSeparator(OutputParts(model, image)[k])
  {
    var a := "alignment";
    assert a != [] && NoSeparator(a);
  }

  /**
   * With a plain output root and non-empty components, the output directory is
   * the root followed by exactly the six components, in order, each after one '/'.
   */
  lemma OutputDirLayout(out: string, model: ModelInfo, image: ImageInfo)
    requires PlainLayout(out, model, image)
    ensures OutputDir(out, model, image)
            == out + "/" + model.architecture + "/" + model.experimentRun + "/" + model.modelName
               + "/" + "alignment" + "/" + image.imgClass + "/" + image.imgName
  {
    var p := OutputParts(model, image);
    PlainParts(model, image);
    var d0 := out;
    var d1 := d0 + "/" + p[0];
    var d2 := d1 + "/" + p[1];
    var d3 := d2 + "/" + p[2];
    var d4 := d3 + "/" + p[3];
    var d5 := d4 + "/" + p[4];
    AppendPart(d0, p[0]);
    AppendPart(d1, p[1]);
    AppendPart(d2, p[2]);
    AppendPart(d3, p[3]);
    AppendPart(d4, p[4]);
    AppendPart(d5, p[5]);
    JoinPathStep(d0, p);
    JoinPathStep(d1, p[1..]);
    JoinPathStep(d2, p[2..]);
    JoinPathStep(d3, p[3..]);
    JoinPathStep(d4, p[4..]);
    JoinPathStep(d5, p[5..]);
    assert p[1..][1..] == p[2..] && p[2..][1..] == p[3..] && p[3..][1..] == p[4..];
    assert p[4..][1..] == p[5..] && p[5..][1..] == [];
  }

  /**
   * With an empty output root, or one that already ends in '/' (such as
   * `results/`), no '/' is added before the first component: the output
   * directory is the root, then the six components with one '/' between them.
   */
  lemma OutputDirLayoutOpenRoot(out: string, model: ModelInfo, image: ImageInfo)
    requires out == [] || out[|out| - 1] == '/'
    requires PlainComponents(model, image)
    ensures OutputDir(out, model, image)
            == out + model.architecture + "/" + model.experimentRun + "/" + model.modelName
               + "/" + "alignment" + "/" + image.imgClass + "/" + image.imgName
  {
    var p := OutputParts(model, image);
    PlainParts(model, image);
    var d1 := out + p[0];
    assert d1[|d1| - 1] == p[0][|p[0]| - 1];
    assert !IsSeparator(p[0][|p[0]| - 1]) && !IsSeparator(p[0][0]);
    assert JoinPath(out, p) == JoinPath(d1, p[1..]);
    var d2 := d1 + "/" + p[1];
    var d3 := d2 + "/" + p[2];
    var d4 := d3 + "/" + p[3];
    var d5 := d4 + "/" + p[4];
    AppendPart(d1, p[1]);
    AppendPart(d2, p[2]);
    AppendPart(d3, p[3]);
    AppendPart(d4, p[4]);
    AppendPart(d5, p[5]);
    JoinPathStep(d1, p[1..]);
    JoinPathStep(d2, p[2..]);
    JoinPathStep(d3, p[3..]);
    JoinPathStep(d4, p[4..]);
    JoinPathStep(d5, p[5..]);
    assert p[1..][1..] == p[2..] && p[2..][1..] == p[3..] && p[3..][1..] == p[4..];
    assert p[4..][1..] == p[5..] && p[5..][1..] == [];
  }

  /**
   * Splitting the output directory gives the root's own segments followed by the
   * six components, so reading the image-path convention back from it gives the
   * image's class and name.
   */
  lemma OutputDirSplit(out: string, model: ModelInfo, image: ImageInfo)
    requires PlainLayout(out, model, image)
    ensures Split(OutputDir(out, model, image)) == Split(out) + OutputParts(model, image)
    ensures ParseImagePath(OutputDir(out, model, image)) == Success(image)
  {
    var parts := OutputParts(model, image);
    PlainParts(model, image);
    JoinPathSplit(out, parts);
    var full := Split(out) + parts;
    assert full[|full| - 2] == image.imgClass && full[|full| - 1] == image.imgName;
  }
}
