# Image filters and colour spaces: a Dafny model of the processing core

The application lets a user upload a JPEG or PNG image and apply one of seven
operations to it: a Gaussian, box, median or bilateral filter, or a
conversion to gray, HSV or YCrCb. The result is written next to the upload
as `{action}_{filename}`. This project models the parts of `app.py` that are
the program's own logic:

- `upload.dfy` (module `Upload`): the extension check `allowed_file` and its
  allow-list `jpg`, `jpeg`, `png`, with Python's `str.rsplit('.', 1)` and
  `str.lower()` written out.
- `raster.dfy` (module `Raster`): decoded images with 8-bit channels, the
  BGR/RGB swap as reversal of each pixel's triple, and the gray
  re-expansion that copies one channel into three.
- `dispatch.dfy` (module `Dispatch`): the closed set of operations `Op`,
  the transform wrappers with their Python default arguments, the
  `if`/`elif` chain as `ParseAction`, and the body of each branch as
  `Apply`. The OpenCV routines are the fields of a `Kernels` value: arbitrary
  functions, so no property relies on what a filter computes.
- `pipeline.dfy` (module `Pipeline`): the output name, the request
  `process_image` as the function `Run` over a folder (a map from file name to
  image), and the class `UploadFolder` whose method `ProcessImage` performs
  the same steps in order and updates the folder in place.
- `wrappers.dfy` (module `Wrappers`): `Option` and `Result`.

The model treats two places in the handler as raising, and it makes both of
them a `Failure` result that leaves the folder unchanged. `ReadFailed` is the
case where `cv2.imread` returns None and the conversion on line 63 fails.
`NothingToSave` is the case where no branch assigned `processed_image` and
the conversion on line 86 fails before `cv2.imwrite`.

The code has no typed errors, no all-or-nothing write, and no one-channel
pass-through for `gray`: it raises at the two points above, writes with a
plain `cv2.imwrite`, and always decodes to three channels.
The code also keeps the HSV and YCrCb results as
raw numbers and passes them through the RGB-to-BGR swap before writing.
The model does the same. `rgb_to_ycbcr` requests `COLOR_RGB2YCrCb`, so the
channel order is Y, Cr, Cb, and the operation is called `YCrCb` here.

## Model

| member | source | states |
|---|---|---|
| `Upload.LowerChar` | app.py:14 | the result is never an upper-case letter; non-letters are unchanged; upper-case letters move by the fixed ASCII case distance |
| `Upload.AllowedExtensions` | app.py:10 | the allow-list `jpg`, `jpeg`, `png` |
| `Upload.AllowedFile` | app.py:10-14 | an accepted name contains a dot and is at least four characters long; its full characterisation over the allow-list `jpg`, `jpeg`, `png` is `AllowedFileIff` |
| `Upload.Lower` | app.py:14 | `lower()` keeps the length and folds each character on its own; `LowerIdempotent` and `AllowedFileOfLower` are its partners |
| `Upload.LastIndexOf` | app.py:14 | None exactly when the character is absent; otherwise an index holding it with no occurrence after it |
| `Upload.RSplitOnce` | app.py:14 | `rsplit(sep, 1)`: the whole string when `sep` is absent; otherwise two parts that rebuild the string around one `sep`, the second free of `sep` |
| `Upload.AllowedFileIff` | app.py:10-14 | a name is accepted iff some dot with no dot after it is followed by text whose lower-case form is `jpg`, `jpeg` or `png` |
| `Upload.FinalExtensionDecides` | app.py:14 | for any stem, `stem.ext` with a dot-free `ext` is accepted iff `lower(ext)` is allowed: only the final extension counts |
| `Upload.AllowedFileOfLower` | app.py:14 | lower-casing a name never changes its verdict |
| `Upload.AllowedFileIgnoresCase` | app.py:14 | two names with the same lower-case form get the same verdict |
| `Upload.NoDotRejected` | app.py:13 | a name without a dot is rejected |
| `Upload.TrailingDotRejected` | app.py:14 | a name ending in a dot (empty extension) is rejected |
| `Upload.LeadingDotAccepted` | app.py:14 | `.png` is accepted |
| `Upload.ExecutableSuffixRejected` | app.py:14 | `a.png.exe` is rejected |
| `Upload.ImageSuffixAccepted` | app.py:14 | `a.exe.png` is accepted |
| `Upload.UpperCaseAccepted` | app.py:14 | `CAT.JPG` is accepted |
| `Upload.LowerCaseAccepted` | app.py:14 | `cat.jpg` is accepted |
| `Raster.SwapChannels` | app.py:63 | the BGR-to-RGB conversion keeps the dimensions and reverses every pixel's triple |
| `Raster.SwapChannelsInvolution` | app.py:63-86 | the swap after processing undoes the swap before it: twice restores every pixel |
| `Raster.ExpandGray` | app.py:78 | `GRAY2RGB` keeps the dimensions and gives each pixel three equal channels carrying the gray value |
| `Raster.SwapFixesGray` | app.py:78-86 | swapping an image of gray pixels leaves it unchanged |
| `Dispatch.ApplyGaussianBlur` | app.py:16-17 | calls `cv2.GaussianBlur` with kernel size (0, 0), so the size comes from sigma; sigma defaults to 1 |
| `Dispatch.ApplyBoxBlur` | app.py:19-20 | calls `cv2.boxFilter` with depth -1 and a square kernel; the size defaults to 5 |
| `Dispatch.ApplyMedianFilter` | app.py:22-23 | calls `cv2.medianBlur` with the kernel size; it defaults to 5 |
| `Dispatch.ApplyBilateralFilter` | app.py:25-26 | calls `cv2.bilateralFilter` with d, sigmaColor and sigmaSpace; they default to 9, 75 and 75 |
| `Dispatch.RgbToGray` | app.py:28-29 | `COLOR_RGB2GRAY`, giving a one-channel image |
| `Dispatch.RgbToHsv` | app.py:31-32 | `COLOR_RGB2HSV` |
| `Dispatch.RgbToYCbCr` | app.py:34-35 | `COLOR_RGB2YCrCb`, so the channel order is Y, Cr, Cb despite the name |
| `Dispatch.ActionName` | app.py:68-82 | the action string of each operation is a key of the seven-entry table `Registry` |
| `Dispatch.Registered` | app.py:68-82 | an operation has the handler's fixed parameters iff it is the table entry for its own action string |
| `Dispatch.ParseAction` | app.py:68-82 | a recognised action yields an operation named by that action with the fixed parameters; an unrecognised one names no operation |
| `Dispatch.ParseForm` | app.py:65-66 | an absent `action` field matches no branch; a present one is dispatched as a string |
| `Dispatch.Registry` | app.py:68-82 | the seven action strings with the operation and parameters each selects |
| `Dispatch.ParseActionMatchesRegistry` | app.py:68-82 | the chain agrees with the table gaussian→2, box→5, median→5, bilateral→(9,75,75), gray, hsv, ycbcr on every string |
| `Dispatch.SevenActions` | app.py:68-82 | exactly seven action strings are recognised |
| `Dispatch.ParseActionName` | app.py:68-82 | every operation with the fixed parameters is reached by its own name |
| `Dispatch.FixedParameters` | app.py:16-82 | Gaussian is called with sigma 2 instead of the wrapper's default 1; box, median and bilateral are called with their wrappers' defaults 5, 5 and (9, 75, 75) |
| `Dispatch.Apply` | app.py:76-78 | on the gray branch the result has the luminance image's dimensions and three equal channels carrying its value |
| `Pipeline.OutputName` | app.py:85 | the name is the action, an underscore, then the upload's name |
| `Pipeline.OutputNameDiffers` | app.py:85-87 | the output name is never the upload's own name |
| `Pipeline.OutputNameInjective` | app.py:85 | for actions without an underscore, equal output names mean equal actions and equal uploads |
| `Pipeline.ActionNamesHaveNoUnderscore` | app.py:68-82 | none of the seven action strings contains an underscore |
| `Pipeline.OutputNamesSeparate` | app.py:85-89 | different actions, or different uploads, write different files |
| `Pipeline.Processed` | app.py:63-86 | the image passed to `imwrite`, swapped back to RGB, is exactly the transform's output on the RGB view of the upload |
| `Pipeline.GrayPathWritesGray` | app.py:76-87 | on the gray path every written pixel has three equal channels equal to the luminance value, with the luminance image's width and height |
| `Pipeline.Run` | app.py:60-89 | unreadable upload: `ReadFailed`; unrecognised or absent action: `NothingToSave`; both write nothing. Otherwise the result is the output name, the folder gains exactly that file holding the swapped, transformed, swapped-back image, and every other file is unchanged |
| `Pipeline.RunSucceeds` | app.py:60-89 | every recognised action on a readable upload succeeds under `{action}_{filename}` and keeps the upload |
| `Pipeline.RunIdempotent` | app.py:85-87 | repeating a request leaves the folder and the result as one request does |
| `Pipeline.UploadFolder.ProcessImage` | app.py:60-89 | the step-by-step handler reports the same result and leaves the folder in the same state as `Run` |

## Left out

- Flask routing, templates, redirects, `request.files` and the upload handler `upload_file` (app.py:37-57, 91-94): web glue. Its image read at app.py:54-55 is discarded.
- `secure_filename` (app.py:49) is a foreign call into werkzeug and is not part of this model.
- `os.path.join` with the upload folder: files are keyed by their name inside the folder. What `join` does with an absolute or `..` name is not modelled.
- File I/O (`cv2.imread`, `cv2.imwrite`, `file.save`, `os.makedirs`): the folder is a map of decoded images. A file that exists but does not decode is modelled like a missing one. A write is assumed to succeed.
- Encoding is not modelled: the folder stores the image passed to `cv2.imwrite`, not its JPEG or PNG encoding. Reading an output back therefore yields exactly what was written, while on disk a JPEG output is lossy.
- Pipeline.Run: an output name with no extension `cv2.imwrite` can encode (for example `gray_png`, for an upload stored as `png`) raises at app.py:87, and the model reports `Success` for it.
- OpenCV filter kernels and colour conversions (app.py:16-35): floating-point library code, left as the arbitrary functions of `Kernels`. Their results are taken to be three-channel 8-bit images (one channel for the luminance conversion), as OpenCV returns for three-channel 8-bit input; nothing is claimed about their dimensions.
- Upload.Lower: folds only ASCII letters, while Python's `str.lower()` folds all of Unicode.
- Pipeline.Run: does not compute the name `None_{filename}` that app.py:85 builds when the form has no `action`, because that value is never used before the failure at app.py:86.
- Exceptions are results here: a failure is a `Failure` value, not a raised error that Flask turns into an error response.
- The unused imports `numpy` and `PIL` (app.py:4-5).
