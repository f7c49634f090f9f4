# JES media functions: a verified model of the picture, sound and frame-ordering core

JES.py re-implements the media vocabulary of the JES teaching environment
(pictures, pixels, sounds, samples) on top of PIL, scipy and cv2. Underneath
the library calls sits a small data model, and that is what this project
models and verifies in Dafny:

- **Colours** (`colors.dfy`, module `Colors`): the channel normalisation
  `JESWrapAroundValue` (clamp to 0..255, or modulo 256 in wrap-around mode),
  `makeColor`, and the `JESColorWrapAround` switch, held by a `ColorMode`
  object instead of a module global; its setter refuses anything that is not
  equal to True or False.
- **Pictures** (`pictures.dfy`, module `Pictures`): a `Picture` class over
  a fixed `array2<Color>` (x is the column, y the row). `Pixel` is a handle
  holding the picture and its coordinates. Also modelled: `getPixel` with its
  x-then-y bounds errors, `getPixels` in column-major order (nested loops),
  the channel getters, the in-place setters `setRed`, `setGreen`, `setBlue`
  and `setColor`, and `setAllPixelsToAColor` (nested loops). From
  `writePictureTo`, only the choice of save format by file extension is
  modelled.
- **Sounds** (`sounds.dfy`, module `Sounds`): a `Sound` class with a sample
  rate and an `array<Int16>` updated in place. It covers the argument checks
  of `makeEmptySound`, including the 400-second cap computed with Python's
  true division, and `getSampleValueAt`/`setSampleValueAt`. It also covers
  the deep copy of `duplicateSound` and the two loops `clip` and `copy`.
- **Frame ordering** (`frames.dfy`, module `Frames`): the path split at the
  last `//`, the sorted listing, and the suffix from the named file. These are
  shared by `makeMovieFromInitialFile` and `makeAVIMovieFromInitialFile`. It
  also covers the slide-name filter of `writeSlideShowTo`. Directory listings
  are inputs.
- `text.dfy` (module `Text`) holds the Python string operations these rely
  on: `rfind`, `in`, `startswith`/`endswith`, code-point order and
  `list.sort`. `wrappers.dfy` holds `Option` and `Result`; `Err` stands for a
  raised exception.

## Model

| member | source | states |
|---|---|---|
| Colors.Normalize | JES.py:150-159 | result always in 0..255; values already in 0..255 pass unchanged in both modes; wrap-around mode gives the residue of the value modulo 256; clamp mode saturates above 255 to 255 and below 0 to 0 |
| Colors.NormalizeIdempotent | JES.py:150-159 | normalising a normalised value changes nothing, in either mode |
| Colors.NormalizeWrapIsResidue | JES.py:153-154 | in wrap-around mode, 256*k + r with 0 <= r <= 255 normalises to r (so -1 gives 255 and 300 gives 44) |
| Colors.MakeColor | JES.py:208-212 | each channel of the result is its argument normalised under the current mode (saturated, or reduced modulo 256), so channels already in 0..255 are kept as given |
| Colors.MakeColorOfStored | JES.py:208-212 | rebuilding a stored colour from its own channels returns that colour, in either mode |
| Colors.FlagValue | JES.py:199 | exactly True, False, 1 and 0 are accepted (1 and True mean wrap-around); every other value is refused |
| Colors.ColorMode.constructor | JES.py:28 | the switch starts in clamp mode (False) |
| Colors.ColorMode.SetColorWrapAround | JES.py:197-206 | an accepted flag becomes what GetColorWrapAround reports; a refused one leaves the mode unchanged |
| Text.RFind | JES.py:241 | returns -1 or a position where the pattern occurs, and no occurrence lies after it (Python's rfind) |
| Text.RFindContains | JES.py:400-401 | rfind returns -1 exactly when the pattern is not contained |
| Text.LexLeReflexive | JES.py:410 | every name sorts at or before itself |
| Text.LexLeTotal | JES.py:410 | any two names are ordered one way or the other |
| Text.LexLeAntisymmetric | JES.py:410 | two names each at or before the other are equal |
| Text.LexLeTransitive | JES.py:410 | the code-point order on names is transitive |
| Text.SortNames | JES.py:410 | the sorted list is in code-point order and is a permutation of the input |
| Text.IndexOf | JES.py:414 | -1 exactly when the name is absent; otherwise the first position holding it |
| Pictures.Picture.constructor | JES.py:107-109 | a fresh grid of the given width and height, every cell the fill colour (white by default), file name "noFileName" |
| Pictures.GetPixel | JES.py:130-137 | fails with the x error exactly when x is outside [0, width); otherwise fails with the y error exactly when y is outside [0, height); otherwise returns the handle of exactly (x, y) |
| Pictures.ColumnsAt | JES.py:139-144 | in the column-major list, position x*height + y holds the handle of (x, y), and the list has n*height entries |
| Pictures.GetPixels | JES.py:139-144 | the nested loops (x outer, y inner) build exactly the column-major list of all handles |
| Pictures.GetPixelsAgreesWithGetPixel | JES.py:130-147 | the list has width*height entries and its entry x*height + y is what getPixel(x, y) returns |
| Pictures.SetRed | JES.py:161-164 | the pixel's red becomes the normalised value; its green and blue and every other pixel are unchanged |
| Pictures.SetGreen | JES.py:171-174 | the pixel's green becomes the normalised value; its red and blue and every other pixel are unchanged |
| Pictures.SetBlue | JES.py:166-169 | the pixel's blue becomes the normalised value; its red and green and every other pixel are unchanged |
| Pictures.SetColor | JES.py:191-195 | the pixel becomes the normalised triple (makeColor of the argument); every other pixel is unchanged |
| Pictures.SetAllPixelsToAColor | JES.py:118-122 | afterwards every pixel of the picture holds makeColor of the given colour |
| Pictures.WriteFormat | JES.py:239-244 | the missing-extension error occurs exactly when the name contains no '.' |
| Pictures.LastDotSuffix | JES.py:241-244 | for an extension with a single leading '.', the text from the last '.' equals it exactly when the name ends with it |
| Pictures.WriteFormatBySuffix | JES.py:239-250 | JPEG exactly for names ending ".jpg" or ".jpeg", PNG exactly for names ending ".png", the unsupported-extension error for every other name that has a '.' |
| Pictures.WriteFormatRefusals | JES.py:245-250 | "out.PNG" (wrong case) and "out.gif" are unsupported; "out" has no extension |
| Sounds.Sound.constructor | JES.py:91-94 | the sound shares the given buffer and keeps the rate and file name |
| Sounds.RatioExceeds | JES.py:365 | for a positive rate, numSamples / sampleRate > 400 in exact division exactly when numSamples > 400 * sampleRate |
| Sounds.EmptySoundCheck | JES.py:362-366 | accepted exactly when both arguments are positive and numSamples <= 400 * sampleRate; the non-positive error is reported first |
| Sounds.EmptySoundCheckExamples | JES.py:362-366 | 100 samples at 22050 Hz and exactly 400 s pass; -1 samples fails as non-positive; 401 s fails as too long |
| Sounds.MakeEmptySound | JES.py:362-368 | fails with the check's error exactly when the check fails; otherwise a fresh all-zero buffer of numSamples at the given rate (22050 by default), named "noname" |
| Sounds.SetSampleValueAt | JES.py:332-333 | only the sample at the index changes, and reading it back gives the value written |
| Sounds.DuplicateSound | JES.py:359-360 | a fresh sound with a fresh buffer holding the same samples, the same rate, named "noFileName" |
| Sounds.Clip | JES.py:508-515 | fails exactly when makeEmptySound(end - start) at 22050 Hz fails; otherwise a fresh sound at 22050 Hz (not the source's rate) whose samples are source[start..end]; the source is not modified |
| Sounds.Copy | JES.py:518-523 | target[start + i] becomes source[i] for every i; all other target samples and the whole source keep their values |
| Frames.SplitFirstFile | JES.py:400-406 | with a "//": the split is at the last "//" (none occurs after the directory part), directory + "//" + name rebuilds the input and the name holds no "//"; without one: directory "" and the whole input as name |
| Frames.SplitFirstFileExample | JES.py:400-402 | "anim//frame02" splits into "anim" and "frame02" |
| Frames.UnpaddedNamesSortByCodePoint | JES.py:410 | "frame10" sorts before "frame2" |
| Frames.SortedSuffixFrom | JES.py:414-420 | in a sorted list, the suffix from the first occurrence of a name is sorted and holds exactly the elements at or after that name |
| Frames.FramesFrom | JES.py:407-420 | NotFound exactly when the name is not listed; otherwise a sorted list starting with the name in which every listed name at or after it occurs as often as it is listed and no other name occurs |
| Frames.SortedSuffixCounts | JES.py:414-420 | counted with multiplicity, the suffix of a sorted list from the first occurrence of a name holds each element at or after the name as often as the list does, and nothing else |
| Frames.InitialFrameNames | JES.py:400-420 | the same, with multiplicities, for the directory and the name split off the initial file's path at its last "//" |
| Frames.SlideFiles | JES.py:435-448 | in code-point order; each name that starts with "slide" and ends with ".jpg" or ".jpeg" appears as often as it is listed, and no other name appears |

`makeAVIMovieFromInitialFile` (JES.py:459-492) repeats the split, sort and
suffix logic of `makeMovieFromInitialFile` line for line. `InitialFrameNames`
models both. `getAllPixels` (JES.py:146-147) is `getPixels` under another
name. `getWidth`, `getHeight`, `getRed`, `getGreen`, `getBlue`, `getColor`,
`getLength`, `getSamplingRate` and `getSampleValueAt` are the plain reads
`Picture.Width`, `Picture.Height`, `GetRed`, `GetGreen`, `GetBlue`,
`GetColor`, `GetLength`, `GetSamplingRate` and `GetSampleValueAt`; what they
read back after a write is stated by the setters `SetRed`, `SetGreen`,
`SetBlue`, `SetColor` and `SetSampleValueAt`.

## Left out

- Decoding and encoding images, sounds and animations are not modelled. This covers `makePicture`, `makeSound`, `writeSoundTo`, the `save` call of `writePictureTo`, `writeMovieTo`, `writeAnimatedGif`, `writeAVI` and `cv2.imread`. They are library I/O.
- Directory listing (`fileList`, `walk`, `listdir`) is not modelled. `InitialFrameNames` takes the listing as a function from directory to names, and `SlideFiles` takes it as a sequence. With no "//", the original lists the directory "", which `os.walk` treats as an empty listing. The model takes whatever `listDir("")` gives.
- Loading each frame from `path + "//" + name` is not modelled. The model stops at the ordered names.
- `duplicatePicture` and `copyInto` are not modelled. They are a PIL copy and a PIL paste.
- Drawing and text are not modelled: `addText`, `addTextWithStyle`, `makeStyle`, `addRect`, `addRectFilled`, `addLine`, `addOval`, `addOvalFilled`, `addArc` and `addArcFilled`. They delegate to ImageDraw and ImageFont.
- Floating-point code is not modelled: `makeDarker`, `makeLighter`, `distance`, `getDuration`, `makeEmptySoundBySeconds`, and the 1000/frameRate and 1.0/delay delays.
- The `makeBrighter` stub and the `__str__` methods are not modelled.
- Sample handles are not modelled: `JESSample`, `getSampleObjectAt`, `getSamples`, `getSampleValue`, `setSampleValue` and `getSound`. Only the indexed sample operations are.
- `getX`/`getY` are the `x` and `y` fields of a `Pixel`.
- Colors.Normalize: the `int()` applied to float arguments is not modelled; arguments are integers.
- Pictures.GetPixel: float coordinates and their `int()` truncation are not modelled.
- Pictures.Picture.constructor: the fill colour must already be a valid colour. A negative size, which PIL rejects, is excluded by the `nat` type.
- Pictures.SetColor: the colour argument is an integer triple. Other indexable Python values are not modelled.
- The picture is modelled as an RGB grid only. Pictures that PIL opens in other modes, where `getpixel` returns a single value, are not modelled.
- Colors.FlagValue: other values equal to True or False, such as 1.0 or numpy booleans, are not modelled. The original also stores the object it was given, so after `setColorWrapAround(1)` `getColorWrapAround` returns 1 rather than True. The model stores the boolean.
- Sounds.EmptySoundCheck: the check uses exact division. Python's float division could round when numbers are far beyond any real buffer size.
- Sounds.GetSampleValueAt: requires 0 <= index < length. Python would wrap a negative index, or raise IndexError for a too-large one.
- Sounds.SetSampleValueAt: the value must be in the int16 range. numpy would wrap a larger value silently.
- Sounds.Clip: requires 0 <= start and end <= length whenever the length check passes. A negative start would read from the end of the source in Python, and too large an end raises IndexError partway through the loop.
- Sounds.Copy: requires the target to be long enough. In Python a short target raises IndexError mid-loop and leaves a partial overwrite.
- The `print` of the refused-flag message in `setColorWrapAround` is not modelled.
