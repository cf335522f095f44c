/**
 * One run of the alignment analysis for one test image, in the order the
 * analysis performs its steps: parse the image and checkpoint paths, read
 * the epoch, derive the output directory, check prototype alignment, look
 * up the image's label, rank the most activated prototypes, rank the
 * prototypes of the top-k classes, and judge the prediction. The network,
 * the dataset folder and the prototype files are inputs: their contents
 * arrive as plain sequences and maps.
 */
module Analysis {
  import opened Outcomes
  import opened Paths
  import opened Epochs
  import opened Alignment
  import opened Ranking

  /** Everything a run reads, with the network outputs already computed. */
  datatype Inputs = Inputs(
    imgPath: string,                 // the test image path as os.path.abspath returns it
    modelPath: string,               // the checkpoint path as os.path.abspath returns it
    out: string,                     // root of the analysis output
    classToIdx: map<string, nat>,    // the image folder's class name -> label
    shape: PrototypeShape,           // ppnet.prototype_shape
    lastLayer: seq<seq<int>>,        // last-layer weights, one row per class
    imgIdentity: seq<int>,           // last column of the prototype bounding-box file
    classIdentity: seq<seq<int>>,    // prototype-by-class identity matrix
    linear: bool,                    // the activation function is 'linear'
    logits: seq<int>,                // logits of the image, one per class
    similarities: seq<int>,          // similarity of the image to each prototype
    topPrototypes: int,              // --top_prototypes
    topClasses: int)                 // --top_classes

  /** The shapes the network and its files agree on. */
  predicate WellShaped(inp: Inputs) {
    var n := inp.shape.count;
    && |inp.logits| > 0
    && |inp.lastLayer| == |inp.logits|
    && IsMatrix(inp.lastLayer, n)
    && |inp.imgIdentity| == n
    && |inp.similarities| == n
    && |inp.classIdentity| == n
    && (forall p :: 0 <= p < n ==> |inp.classIdentity[p]| == |inp.logits|)
  }

  /** What a completed run has logged and laid out. */
  datatype Report = Report(
    image: ImageInfo,
    model: ModelInfo,
    epoch: nat,
    outDir: string,
    maxDist: nat,
    alignment: AlignmentMessage,
    predicted: nat,
    correct: nat,
    mostActivated: seq<nat>,
    classSections: seq<ClassSection>,
    verdict: Verdict)

  /** Why a run stops early. */
  datatype RunError =
    | Parse(cause: ParseError)                    // a path with too few segments, or no digits in the checkpoint name
    | UnknownClass(imgClass: string)              // the image's folder is not a class of the dataset
    | PrototypeIndex(requested: nat, available: nat) // more top prototypes requested than exist
    | Selection(reason: SelectionError)            // the top-k class assertion or topk itself

  /** The activations the rankings use: shifted by the largest distance for a linear activation. */
  function Activations(inp: Inputs): (act: seq<int>)
    ensures |act| == |inp.similarities|
    ensures forall p :: 0 <= p < |act| ==> act[p] == inp.similarities[p] + (if inp.linear then MaxDist(inp.shape) else 0)
  {
    if inp.linear then Shifted(inp.similarities, MaxDist(inp.shape)) else Shifted(inp.similarities, 0)
  }

  /** The class rankings computed on shifted activations are the rankings of the raw similarities. */
  lemma ClassRankingShifted(identity: seq<seq<int>>, act: seq<int>, d: int, c: nat, entries: seq<ClassEntry>)
    requires |identity| == |act|
    requires forall p :: 0 <= p < |identity| ==> c < |identity[p]|
    requires IsClassRanking(identity, Shifted(act, d), c, entries)
    ensures IsClassRanking(identity, act, c, entries)
  {
    var protos := Prototypes(entries);
    var shifted := Shifted(act, d);
    forall p, q | 0 <= p < q < |protos| ensures act[protos[p]] >= act[protos[q]] {
      assert shifted[protos[p]] >= shifted[protos[q]];
    }
  }

  /** The image and checkpoint identified by the two paths, and the checkpoint's epoch. */
  datatype Located = Located(image: ImageInfo, model: ModelInfo, epoch: nat)

  /**
   * The parameter computation that opens a run: the image path is split
   * first, then the checkpoint path, then the epoch is read from the
   * checkpoint's file name; the first step that fails stops the run.
   */
  function Locate(imgPath: string, modelPath: string): (r: Result<Located, RunError>)
    ensures NoSeparator(imgPath) ==> r == Failure(Parse(TooFewSegments(2, 1)))
    ensures !NoSeparator(imgPath) && |Separators(modelPath)| < 3 ==>
              r == Failure(Parse(TooFewSegments(4, |Separators(modelPath)| + 1)))
    ensures r.Success? <==>
              !NoSeparator(imgPath) && |Separators(modelPath)| >= 3 &&
              !NoDigit(ParseModelPath(modelPath).value.modelName)
    ensures r.Failure? && |Separators(modelPath)| >= 3 && !NoSeparator(imgPath) ==>
              r == Failure(Parse(NoDigitRun(ParseModelPath(modelPath).value.modelName)))
    ensures r.Success? ==> Epoch(r.value.model.modelName) == Success(r.value.epoch)
  {
    match ParseImagePath(imgPath)
    case Failure(e) => Failure(Parse(e))
    case Success(image) =>
      match ParseModelPath(modelPath)
      case Failure(e) => Failure(Parse(e))
      case Success(model) =>
        match Epoch(model.modelName)
        case Failure(e) => Failure(Parse(e))
        case Success(epoch) => Success(Located(image, model, epoch))
  }

  /**
   * For paths laid out as `…/<class>/<image>` and
   * `…/<architecture>/<run>/<dir>/<name><epoch digits><rest>`, the run reads
   * back exactly those components and that epoch.
   */
  lemma LocateLayout(imgPrefix: seq<string>, imgClass: string, imgName: string, imgSeps: seq<char>,
                     modelPrefix: seq<string>, arch: string, run: string, dir: string,
                     namePrefix: string, epoch: nat, rest: string, modelSeps: seq<char>)
    requires |imgSeps| == |imgPrefix| + 1 && AllSeparators(imgSeps)
    requires forall k :: 0 <= k < |imgPrefix| ==> NoSeparator(imgPrefix[k])
    requires NoSeparator(imgClass) && NoSeparator(imgName)
    requires |modelSeps| == |modelPrefix| + 3 && AllSeparators(modelSeps)
    requires forall k :: 0 <= k < |modelPrefix| ==> NoSeparator(modelPrefix[k])
    requires NoSeparator(arch) && NoSeparator(run) && NoSeparator(dir)
    requires NoSeparator(namePrefix) && NoSeparator(rest)
    requires NoDigit(namePrefix) && (rest == [] || !IsDigit(rest[0]))
    ensures var name := namePrefix + Decimal(epoch) + rest;
            Locate(Rejoin(imgPrefix + [imgClass, imgName], imgSeps),
                   Rejoin(modelPrefix + [arch, run, dir, name], modelSeps))
            == Success(Located(ImageInfo(imgClass, imgName), ModelInfo(arch, run, name), epoch))
  {
    var name := namePrefix + Decimal(epoch) + rest;
    DecimalNoSeparator(namePrefix, epoch, rest);
    var imgPath := Rejoin(imgPrefix + [imgClass, imgName], imgSeps);
    var modelPath := Rejoin(modelPrefix + [arch, run, dir, name], modelSeps);
    ParseImagePathOfRejoin(imgPrefix, imgClass, imgName, imgSeps);
    ParseModelPathOfRejoin(modelPrefix, arch, run, dir, name, modelSeps);
    EpochOfDecimal(namePrefix, epoch, rest);
    LocateOf(imgPath, modelPath, ImageInfo(imgClass, imgName), ModelInfo(arch, run, name), epoch);
  }

  lemma LocateOf(imgPath: string, modelPath: string, image: ImageInfo, model: ModelInfo, epoch: nat)
    requires ParseImagePath(imgPath) == Success(image)
    requires ParseModelPath(modelPath) == Success(model)
    requires Epoch(model.modelName) == Success(epoch)
    ensures Locate(imgPath, modelPath) == Success(Located(image, model, epoch))
  {
  }

  /** A checkpoint name built around a decimal epoch holds no separator when its other parts do not. */
  lemma DecimalNoSeparator(namePrefix: string, epoch: nat, rest: string)
    requires NoSeparator(namePrefix) && NoSeparator(rest)
    ensures NoSeparator(namePrefix + Decimal(epoch) + rest)
  {
    var ds := Decimal(epoch);
    forall k | 0 <= k < |ds| ensures !IsSeparator(ds[k]) {
      assert IsDigit(ds[k]);
    }
  }

  /**
   * The two rankings of a run on the activations `act`: the global top
   * prototypes, and for each of the top-k classes, highest logit first, the
   * ranking of that class's prototypes.
   */
  predicate RankedOn(inp: Inputs, act: seq<int>, mostActivated: seq<nat>, sections: seq<ClassSection>)
    requires WellShaped(inp) && |act| == |inp.similarities|
  {
    && inp.topPrototypes <= |act|
    && 0 <= inp.topClasses <= |inp.logits|
    // a count of zero or below ranks no prototype
    && (inp.topPrototypes <= 0 ==> mostActivated == [])
    && (inp.topPrototypes > 0 ==> mostActivated == TopIndices(act, inp.topPrototypes))
    && |sections| == inp.topClasses
    && (forall i :: 0 <= i < inp.topClasses ==>
          && sections[i].rank == i + 1
          && sections[i].cls == TopIndices(inp.logits, inp.topClasses)[i]
          && IsClassRanking(inp.classIdentity, act, sections[i].cls, sections[i].entries))
  }

  /**
   * The rankings stated on the raw similarities, whatever the activation
   * offset (which holds in exact integer arithmetic).
   */
  predicate Ranked(inp: Inputs, mostActivated: seq<nat>, sections: seq<ClassSection>)
    requires WellShaped(inp)
  {
    RankedOn(inp, inp.similarities, mostActivated, sections)
  }

  /** Rankings on shifted activations are rankings on the raw similarities. */
  lemma RankedShifted(inp: Inputs, d: int, mostActivated: seq<nat>, sections: seq<ClassSection>)
    requires WellShaped(inp)
    requires RankedOn(inp, Shifted(inp.similarities, d), mostActivated, sections)
    ensures Ranked(inp, mostActivated, sections)
  {
    if inp.topPrototypes > 0 {
      TopIndicesShifted(inp.similarities, d, inp.topPrototypes);
    }
    forall i | 0 <= i < inp.topClasses
      ensures IsClassRanking(inp.classIdentity, inp.similarities, sections[i].cls, sections[i].entries)
    {
      ClassRankingShifted(inp.classIdentity, inp.similarities, d, sections[i].cls, sections[i].entries);
    }
  }

  /**
   * The ranking half of a run on the (possibly shifted) activations: the
   * loop over the most activated prototypes, which stops at an index past
   * the start, then the top-k class sections.
   */
  method Rankings(inp: Inputs) returns (r: Result<(seq<nat>, seq<ClassSection>), RunError>)
    requires WellShaped(inp)
    ensures inp.topPrototypes > |inp.similarities| ==> r == Failure(PrototypeIndex(inp.topPrototypes, |inp.similarities|))
    ensures inp.topPrototypes <= |inp.similarities| && inp.topClasses >= |inp.classToIdx| ==>
              r == Failure(Selection(TooManyClasses(inp.topClasses, |inp.classToIdx|)))
    ensures inp.topPrototypes <= |inp.similarities| && inp.topClasses < |inp.classToIdx| &&
            (inp.topClasses < 0 || inp.topClasses > |inp.logits|) ==>
              r == Failure(Selection(TopKOutOfRange(inp.topClasses, |inp.logits|)))
    ensures r.Success? <==>
              inp.topPrototypes <= |inp.similarities| && inp.topClasses < |inp.classToIdx| && 0 <= inp.topClasses <= |inp.logits|
    ensures r.Success? ==> Ranked(inp, r.value.0, r.value.1)
  {
    var act := Activations(inp);
    var ranked, completed := MostActivated(act, inp.topPrototypes);
    if !completed {
      return Failure(PrototypeIndex(inp.topPrototypes, |act|));
    }
    var d := if inp.linear then MaxDist(inp.shape) else 0;
    assert act == Shifted(inp.similarities, d);

    var sections := ClassSections(inp.classIdentity, act, inp.logits, inp.topClasses, |inp.classToIdx|);
    if sections.Failure? {
      return Failure(Selection(sections.error));
    }
    assert RankedOn(inp, act, ranked, sections.value);
    RankedShifted(inp, d, ranked, sections.value);
    r := Success((ranked, sections.value));
  }

  /** What a completed run reports, step by step. */
  predicate Describes(inp: Inputs, located: Located, rep: Report)
    requires WellShaped(inp)
  {
    && rep.image == located.image
    && rep.model == located.model
    && rep.epoch == located.epoch
    && rep.outDir == OutputDir(inp.out, rep.model, rep.image)
    && rep.maxDist == MaxDist(inp.shape)
    && rep.image.imgClass in inp.classToIdx
    && rep.correct == inp.classToIdx[rep.image.imgClass]
    // all-connect exactly when every prototype's strongest class is its own
    && (rep.alignment == AllConnectStrongly <==>
          forall p :: 0 <= p < inp.shape.count ==>
            MaxConnection(inp.lastLayer, inp.shape.count)[p] == inp.imgIdentity[p])
    // the predicted class is the first class with the largest logit
    && rep.predicted == ArgMax(inp.logits)
    && (forall j :: 0 <= j < |inp.logits| ==> inp.logits[j] <= inp.logits[rep.predicted])
    && (forall j :: 0 <= j < rep.predicted ==> inp.logits[j] < inp.logits[rep.predicted])
    // the verdict is correct exactly when that class is the label
    && rep.verdict == Judge(inp.logits, rep.correct)
    && (rep.verdict == Correct <==> rep.predicted == rep.correct)
    && Ranked(inp, rep.mostActivated, rep.classSections)
  }

  /**
   * Everything after the parameters are known: the output directory, the
   * alignment check, the label lookup, the two rankings and the verdict.
   */
  method Analyze(inp: Inputs, located: Located) returns (r: Result<Report, RunError>)
    requires WellShaped(inp)
    // the image's folder must name a dataset class
    ensures located.image.imgClass !in inp.classToIdx ==> r == Failure(UnknownClass(located.image.imgClass))
    // asking for more top prototypes than exist stops the run
    ensures located.image.imgClass in inp.classToIdx && inp.topPrototypes > |inp.similarities| ==>
              r == Failure(PrototypeIndex(inp.topPrototypes, |inp.similarities|))
    // the top-k assertion is checked before topk itself
    ensures located.image.imgClass in inp.classToIdx && inp.topPrototypes <= |inp.similarities| &&
            inp.topClasses >= |inp.classToIdx| ==>
              r == Failure(Selection(TooManyClasses(inp.topClasses, |inp.classToIdx|)))
    ensures located.image.imgClass in inp.classToIdx && inp.topPrototypes <= |inp.similarities| &&
            inp.topClasses < |inp.classToIdx| && (inp.topClasses < 0 || inp.topClasses > |inp.logits|) ==>
              r == Failure(Selection(TopKOutOfRange(inp.topClasses, |inp.logits|)))
    // the analysis completes exactly when every step succeeds
    ensures r.Success? <==>
              && located.image.imgClass in inp.classToIdx
              && inp.topPrototypes <= |inp.similarities|
              && inp.topClasses < |inp.classToIdx|
              && 0 <= inp.topClasses <= |inp.logits|
    ensures r.Success? ==> Describes(inp, located, r.value)
  {
    var image := located.image;
    var model := located.model;
    var outDir := OutputDir(inp.out, model, image);

    var n := inp.shape.count;
    var maxDist := MaxDist(inp.shape);
    var connection := MaxConnection(inp.lastLayer, n);
    var alignment := CheckAlignment(connection, inp.imgIdentity, n);

    if image.imgClass !in inp.classToIdx {
      return Failure(UnknownClass(image.imgClass));
    }
    var correct := inp.classToIdx[image.imgClass];
    var predicted := ArgMax(inp.logits);

    var rankings := Rankings(inp);
    if rankings.Failure? {
      return Failure(rankings.error);
    }
    var verdict := Judge(inp.logits, correct);
    r := Success(Report(image, model, located.epoch, outDir, maxDist, alignment, predicted, correct,
                        rankings.value.0, rankings.value.1, verdict));
  }

  /** One run of the analysis for one image: locate, then analyze. */
  method RunAnalysis(inp: Inputs) returns (r: Result<Report, RunError>)
    requires WellShaped(inp)
    ensures Locate(inp.imgPath, inp.modelPath).Failure? ==> r == Failure(Locate(inp.imgPath, inp.modelPath).error)
    ensures Locate(inp.imgPath, inp.modelPath).Success? &&
            Locate(inp.imgPath, inp.modelPath).value.image.imgClass !in inp.classToIdx ==>
              r == Failure(UnknownClass(Locate(inp.imgPath, inp.modelPath).value.image.imgClass))
    // with the label known, the ranking steps fail in source order
    ensures Locate(inp.imgPath, inp.modelPath).Success? &&
            Locate(inp.imgPath, inp.modelPath).value.image.imgClass in inp.classToIdx ==>
              && (inp.topPrototypes > |inp.similarities| ==>
                    r == Failure(PrototypeIndex(inp.topPrototypes, |inp.similarities|)))
              && (inp.topPrototypes <= |inp.similarities| && inp.topClasses >= |inp.classToIdx| ==>
                    r == Failure(Selection(TooManyClasses(inp.topClasses, |inp.classToIdx|))))
              && (inp.topPrototypes <= |inp.similarities| && inp.topClasses < |inp.classToIdx| &&
                  (inp.topClasses < 0 || inp.topClasses > |inp.logits|) ==>
                    r == Failure(Selection(TopKOutOfRange(inp.topClasses, |inp.logits|))))
    // a run completes exactly when every step succeeds
    ensures r.Success? <==>
              && Locate(inp.imgPath, inp.modelPath).Success?
              && Locate(inp.imgPath, inp.modelPath).value.image.imgClass in inp.classToIdx
              && inp.topPrototypes <= |inp.similarities|
              && inp.topClasses < |inp.classToIdx|
              && 0 <= inp.topClasses <= |inp.logits|
    ensures r.Success? ==> Describes(inp, Locate(inp.imgPath, inp.modelPath).value, r.value)
  {
    var located := Locate(inp.imgPath, inp.modelPath);
    if located.Failure? {
      return Failure(located.error);
    }
    r := Analyze(inp, located.value);
  }
}
