# Identifying Text in Images: a Dafny model of the OCR glue

The program reads a document image, binarizes it, and hands it to the
Tesseract engine twice. The first call returns the page text. The second
returns a column-oriented table of recognized words. This project models the
part of `main.py` that turns those two engine outputs into what the program
emits:

- **Text cleanup** (`perform_ocr`). Every form feed (the engine's page break)
  is removed from the raw text. Then Python's `str.strip()` trims the ends.
  Module `TextCleanup` also models Python's whitespace set (`str.isspace`),
  `strip()` and one-character `replace`.
- **Bounding boxes** (`draw_bounding_boxes`). The loop walks the token table
  row by row. It keeps a token when its stripped text is non-empty and its
  confidence is at least the threshold. For each kept token it draws a green
  rectangle and a red label of at most 25 characters on a copy of the image,
  and it counts the boxes. Module `Annotation` holds the table, the filter,
  the specification of what is drawn (`Render`), and the loop itself
  (`DrawBoundingBoxes`, with `DrawRow` as its body). Module `Drawing` is the
  image copy: a `Canvas` whose list of draw commands `cv2.rectangle` and
  `cv2.putText` extend in place. Module `Selection` states, for any keep-test,
  which elements such a loop acts on and in which order.
- **Fallback banner** (`make_fallback_annotated`). When text recognition
  raised an exception, a banner `max(30, h // 18)` pixels high is drawn across the top of the
  image. Module `Fallback` models that height.

Engine output is an input to the model. The token table is a record of
optional columns, because any key of the dictionary may be absent. A missing
column takes the source's default: `""` for text, `"-1"` for confidence and
`0` for the geometry. The row count comes from `level` alone, and is 0 when
`level` is absent. A column that is present but shorter than the row count
makes Python raise `IndexError` at the first row that reads past its end.
The model returns that as `Err(IndexOutOfRange(column, row))`. It keeps the
source's reading order: text, then confidence, and the four geometry columns
only for a row that passes the filter. A confidence is either a parsed number
(`real`, standing for Python's `float`) or unparsable, and unparsable counts
as -1.0.

A label's row is clamped at 0 only (`max(0, y - 5)`, main.py:150). Nothing
keeps a label inside the image at its right or bottom edge, and the model
does not either.

## Model

| member | source | states |
|---|---|---|
| `TextCleanup.Strip` | main.py:105 | the result has no whitespace at either end, is no longer than the input, holds only characters of the input, and is empty exactly when the input is all whitespace |
| `TextCleanup.RemoveAll` | main.py:105 | `replace(c, "")` leaves no `c` in the result, keeps every other character with its multiplicity, and changes nothing when `c` is absent |
| `TextCleanup.RemoveAllIsFilter` | main.py:105 | `replace(c, "")` keeps exactly the characters other than `c`, in their original order |
| `TextCleanup.PerformOcr` | main.py:96-105 | the returned text holds no form feed, has no whitespace at either end, and is empty exactly when the raw engine output is all whitespace |
| `TextCleanup.PerformOcrIdempotent` | main.py:105 | cleaning the returned text a second time leaves it unchanged |
| `TextCleanup.StripIdempotent` | main.py:105 | stripping a stripped string changes nothing |
| `TextCleanup.StripUnique` | main.py:105 | for an all-whitespace prefix, a trimmed middle and an all-whitespace suffix, `strip()` returns exactly the middle |
| `TextCleanup.StripRemovesOnlySpace` | main.py:105 | the result of `strip()` is a contiguous slice of the input, and every character outside that slice is whitespace |
| `TextCleanup.RemoveAllKeepsSpace` | main.py:105 | removing a whitespace character leaves an all-whitespace string all whitespace, and a string that was not all whitespace stays so |
| `Annotation.TokenText` | main.py:131 | a token's text after `(text or "").strip()` has no whitespace at either end, and is empty exactly when the cell is `None` or all whitespace |
| `Annotation.Passes` | main.py:131-138 | a token passes the filter exactly when its text cell is a string that is not all whitespace and its confidence is at least the threshold |
| `Annotation.Box` | main.py:139-145 | the rectangle's first corner is the token's `(left, top)`, and its extent is the token's width and height |
| `Annotation.Label` | main.py:147-150 | the label text is a prefix of the token's stripped text, at most 25 characters long, and all of it when it is shorter; the label sits at the box's left edge, on row `top - 5` clamped to 0, so never on a negative row |
| `Annotation.BlankNeverDrawn` | main.py:131-138 | a token whose text is `None`, empty or whitespace-only draws nothing, whatever its confidence |
| `Annotation.ThresholdInclusive` | main.py:138 | a non-blank token whose confidence equals the threshold draws its box and label; one below the threshold draws nothing |
| `Annotation.UnparsableConfidenceRule` | main.py:132-138 | a token with an unparsable confidence passes exactly when its text is non-blank and the threshold is at most -1.0, so it never passes a threshold of 0 or more, and never the default 60 |
| `Annotation.SurvivorIndicesCorrect` | main.py:130-145 | the kept positions are exactly the rows whose token passes the filter, each once, in increasing order; the kept tokens are the tokens at those positions, and there are at most as many of them as rows |
| `Annotation.RenderShape` | main.py:138-157 | what is drawn is, kept token by kept token, its rectangle `(left, top)`-`(left + width, top + height)` followed by its label, so twice as many commands as kept tokens |
| `Annotation.RenderLabelsPlaced` | main.py:147-150 | every label drawn lies on a non-negative row and has at most 25 characters |
| `Annotation.Step` | main.py:131-157 | a row that raises raises at its own index; it raises on `text` exactly when that column is present and too short; it raises on a geometry column only when its text and confidence were read and it passed the filter; otherwise it draws nothing or exactly two commands |
| `Annotation.Annotate` | main.py:130-157 | after the first `k` rows, either an even number of commands, at most two per row, has been drawn, or a row before `k` has raised |
| `Annotation.StepWellFormed` | main.py:131-145 | when every present column is long enough, a row never raises and draws exactly what its token record calls for |
| `Annotation.AnnotateErrorPersists` | main.py:130-142 | once a row has raised `IndexError`, the later rows do not change the outcome |
| `Annotation.AnnotateWellFormed` | main.py:126-157 | when every present column is long enough, the loop raises nothing and draws exactly `Render` of the table's tokens |
| `Annotation.WellFormedOutcome` | main.py:126-157 | on a table whose present columns are all long enough, the whole loop draws `Render` of its tokens, twice as many commands as kept tokens |
| `Annotation.DrawRow` | main.py:131-157 | one loop pass either raises the row's `IndexError` before drawing anything, or appends the row's box and label (or nothing) to the canvas and reports whether a box was drawn |
| `Annotation.DrawBoundingBoxes` | main.py:108-159 | the method raises exactly the loop's `IndexError`, or returns a copy of the image carrying the loop's draw commands with `2 * count` commands and `count <= n`; on a well-formed table nothing raises, the commands are `Render` of the tokens and `count` is the number of kept tokens; without `level` nothing is drawn and `count` is 0; the returned image is a new copy |
| `Drawing.Canvas.Copy` | main.py:126 | the copy has the original image's size and nothing drawn on it |
| `Drawing.Canvas.Rectangle` | main.py:145 | the rectangle is appended after every earlier command, with its corners, colour and thickness |
| `Drawing.Canvas.PutText` | main.py:147-156 | the text is appended after every earlier command, with its position, scale, colour and thickness |
| `Selection.FilterAtPositions` | main.py:130-138 | the elements a keep-test accepts are the elements at the accepted positions, and there are at most as many as elements |
| `Selection.PositionsIncreasing` | main.py:130 | accepted positions lie inside the list and are strictly increasing |
| `Selection.PositionsExact` | main.py:138 | a position is accepted exactly when the keep-test accepts the element there |
| `Fallback.BannerHeight` | main.py:174 | the banner is at least 30 pixels and at least `h // 18`, and equals one of the two |
| `Fallback.BannerHeightProportional` | main.py:174 | the banner equals `h // 18` exactly when the image is at least 540 pixels high |
| `Fallback.BannerHeightMinimum` | main.py:174 | the banner stays at 30 pixels exactly while the image is under 558 pixels high |
| `Fallback.BannerHeightMonotone` | main.py:174 | a taller image never gets a shorter banner |

## Left out

- `preprocess_image` (grayscale, Gaussian blur, Otsu threshold, morphological open and close) is a chain of OpenCV calls over pixel buffers, with no algorithm visible in the repository.
- The engine calls `image_to_string` and `image_to_data` are external. Their outputs are the model's inputs: a string, and a token table. The `lang` argument and the configuration string `--oem 3 --psm 6` only reach the engine.
- Pixels are not modelled. An image keeps only its height and width. `cv2.rectangle` and `cv2.putText` are recorded as draw commands with their coordinates, text, scale, colour and thickness. The font face and line type are not recorded.
- `make_fallback_annotated` is modelled only through its banner height. The red overlay rectangle, the `addWeighted` blend with alpha 0.5, the message text and its floating-point baseline `int(banner_h * 0.7)` are rendering.
- `ensure_tesseract_cmd` probes the search path and the file system and sets a library global.
- `save_text`, `cv2.imwrite`, `cv2.imshow`, `cv2.waitKey` and `input()` are file, console and window I/O.
- The exception handling in `main` depends on library exception types. In it, a failed text recognition sets `ocr_ok` to false, which selects the banner image instead of the boxes.
- Confidences that `float()` parses to NaN or infinity are not modelled. A confidence is a real number or unparsable.
- `int()` on the geometry cells is taken as the identity. The cells are modelled as integers, as the engine produces them. Truncation of a float cell and failure on a non-numeric cell are not modelled.
- The `or ""` on a text cell is modelled for `None` only, the one falsy non-string value the engine produces.
- OpenCV's 32-bit limit on coordinates is not modelled. Coordinates are unbounded integers, as in Python.
