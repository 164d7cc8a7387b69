/**
 * The handler `process_image` of app.py: read the upload, swap BGR to RGB,
 * dispatch on the action, swap RGB back to BGR and write the result under
 * the name `{action}_{filename}` in the upload folder.
 *
 * The folder is a map from file name to decoded image. A name that is
 * absent stands for a file `cv2.imread` cannot read (it returns None).
 */
module Pipeline {
  import opened Wrappers
  import opened Raster
  import opened Dispatch

  /**
   * Where the handler raises. `ReadFailed`: `cv2.imread` returned None and
   * the BGR-to-RGB conversion fails. `NothingToSave`: no branch of the
   * chain assigned the processed image, and the RGB-to-BGR conversion fails.
   */
  datatype Failure = ReadFailed | NothingToSave

  /** The name of the processed file, `f'{action}_{filename}'`. */
  function OutputName(action: string, filename: string): (r: string)
    ensures |r| == |action| + 1 + |filename|
    ensures r[..|action|] == action && r[|action|] == '_' && r[|action| + 1..] == filename
  {
    action + "_" + filename
  }

  /** The output never has the upload's own name, so the upload is never overwritten. */
  lemma OutputNameDiffers(action: string, filename: string)
    ensures OutputName(action, filename) != filename
  {
    assert |OutputName(action, filename)| > |filename|;
  }

  /** For actions without an underscore, the output name determines both the action and the upload. */
  lemma {:induction false} OutputNameInjective(a1: string, f1: string, a2: string, f2: string)
    requires '_' !in a1 && '_' !in a2
    ensures OutputName(a1, f1) == OutputName(a2, f2) <==> a1 == a2 && f1 == f2
  {
    var n1, n2 := OutputName(a1, f1), OutputName(a2, f2);
    if n1 == n2 {
      assert |a1| == |a2|;
      assert a1 == n1[..|a1|] && a2 == n2[..|a2|];
      assert f1 == n1[|a1| + 1..] && f2 == n2[|a2| + 1..];
    }
  }

  /** None of the seven action names has an underscore. */
  lemma ActionNamesHaveNoUnderscore(op: Op)
    ensures '_' !in ActionName(op)
  {
  }

  /** Distinct operations on one upload write distinct files, and one operation on distinct uploads too. */
  lemma OutputNamesSeparate(op1: Op, f1: string, op2: Op, f2: string)
    requires ActionName(op1) != ActionName(op2) || f1 != f2
    ensures OutputName(ActionName(op1), f1) != OutputName(ActionName(op2), f2)
  {
    ActionNamesHaveNoUnderscore(op1);
    ActionNamesHaveNoUnderscore(op2);
    OutputNameInjective(ActionName(op1), f1, ActionName(op2), f2);
  }

  /**
   * The image written for `op`: the transform sandwiched between the two
   * channel swaps. Read back in RGB order it is exactly the transform's
   * output on the RGB view of the upload.
   */
  function Processed(k: Kernels, op: Op, stored: Image): (r: Image)
    ensures SwapChannels(r) == Apply(k, op, SwapChannels(stored))
  {
    SwapChannelsInvolution(Apply(k, op, SwapChannels(stored)));
    SwapChannels(Apply(k, op, SwapChannels(stored)))
  }

  /**
   * On the gray path every written pixel has three equal channels, equal to
   * the luminance value, and the dimensions are those of the luminance image.
   */
  lemma {:induction false} GrayPathWritesGray(k: Kernels, stored: Image)
    ensures
      var g := RgbToGray(k, SwapChannels(stored));
      var out := Processed(k, Gray, stored);
      out == ExpandGray(g) &&
      out.width == g.width && out.height == g.height &&
      (WellFormed(out) <==> WellFormed(g)) &&
      forall i :: 0 <= i < |out.cells| ==> IsGrayPixel(out.cells[i]) && out.cells[i].first == g.cells[i]
  {
    var g := RgbToGray(k, SwapChannels(stored));
    SwapFixesGray(ExpandGray(g));
  }

  /**
   * What one request does to the folder: the result it reports and the
   * folder afterwards.
   */
  function Run(files: map<string, Image>, filename: string, action: Option<string>, k: Kernels)
    : (out: (Result<string, Failure>, map<string, Image>))
    ensures out.0.Failure? ==> out.1 == files
    ensures out.0 == Failure(ReadFailed) <==> filename !in files
    ensures out.0 == Failure(NothingToSave) <==> filename in files && ParseForm(action).None?
    ensures out.0.Success? ==>
      action.Some? && out.0.value == OutputName(action.value, filename) &&
      out.1.Keys == files.Keys + {out.0.value} &&
      out.1[out.0.value] == Processed(k, ParseForm(action).value, files[filename]) &&
      forall n :: n in files && n != out.0.value ==> out.1[n] == files[n]
  {
    if filename !in files then (Failure(ReadFailed), files)
    else match ParseForm(action)
      case None => (Failure(NothingToSave), files)
      case Some(op) =>
        var name := OutputName(action.value, filename);
        (Success(name), files[name := Processed(k, op, files[filename])])
  }

  /** A recognised action on a readable upload succeeds and keeps the upload. */
  lemma {:induction false} RunSucceeds(files: map<string, Image>, filename: string, op: Op, k: Kernels)
    requires filename in files && Registered(op)
    ensures
      var out := Run(files, filename, Some(ActionName(op)), k);
      out.0 == Success(OutputName(ActionName(op), filename)) &&
      filename in out.1 && out.1[filename] == files[filename] &&
      out.1[out.0.value] == Processed(k, op, files[filename])
  {
    ParseActionName(op);
    OutputNameDiffers(ActionName(op), filename);
  }

  /** Running the same request twice leaves the folder as running it once. */
  lemma {:induction false} RunIdempotent(files: map<string, Image>, filename: string, action: Option<string>, k: Kernels)
    ensures Run(Run(files, filename, action, k).1, filename, action, k) == Run(files, filename, action, k)
  {
    var once := Run(files, filename, action, k);
    if once.0.Success? {
      OutputNameDiffers(action.value, filename);
      assert once.1[filename] == files[filename];
      var name, img := once.0.value, Processed(k, ParseForm(action).value, files[filename]);
      assert once.1 == files[name := img];
      assert once.1[name := img] == once.1;
    }
  }

  /** The upload folder on disk and the handler that writes into it. */
  class UploadFolder {
    var files: map<string, Image>

    constructor (initial: map<string, Image>)
      ensures files == initial
    {
      files := initial;
    }

    /** `process_image(filename)` with the form field `action`, the OpenCV routines given by `k`. */
    method ProcessImage(filename: string, action: Option<string>, k: Kernels) returns (r: Result<string, Failure>)
      modifies this
      ensures (r, files) == Run(old(files), filename, action, k)
    {
      if filename !in files {
        return Failure(ReadFailed);
      }
      var image := files[filename];
      image := SwapChannels(image);
      var processed: Option<Image> := None;
      var op := ParseForm(action);
      if op.Some? {
        processed := Some(Apply(k, op.value, image));
      }
      if processed.None? {
        return Failure(NothingToSave);
      }
      var name := OutputName(action.value, filename);
      var written := SwapChannels(processed.value);
      files := files[name := written];
      r := Success(name);
    }
  }
}
