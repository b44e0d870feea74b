/**
  * The image and the OpenCV drawing calls, abstracted.  An image keeps only
  * its size; pixel contents are not modelled.  Drawing onto a copy of an
  * image (`img_bgr.copy()` followed by `cv2.rectangle` / `cv2.putText`,
  * which mutate that copy in place) is modelled as a `Canvas` object whose
  * list of draw commands each call extends.
  */
module Drawing {

  /** An image as `img.shape[:2]` sees it: height and width in pixels. */
  datatype Image = Image(height: nat, width: nat)

  /** An OpenCV colour tuple, in blue-green-red order. */
  datatype Color = Bgr(blue: int, green: int, red: int)

  /** One OpenCV drawing call, with the arguments that it was given. */
  datatype DrawCommand =
    | DrawRect(x1: int, y1: int, x2: int, y2: int, color: Color, thickness: int)
    | DrawText(text: string, x: int, y: int, scale: real, color: Color, thickness: int)

  /** A copy of an image that drawing calls mutate in place. */
  class Canvas {
    /** The image this canvas was copied from. */
    const base: Image
    /** The drawing calls applied to the copy so far, oldest first. */
    var commands: seq<DrawCommand>

    /** `img.copy()`: a fresh copy on which nothing is drawn yet. */
    constructor Copy(img: Image)
      ensures base == img && commands == []
    {
      base := img;
      commands := [];
    }

    /** `cv2.rectangle(canvas, (x1, y1), (x2, y2), color, thickness)`. */
    method Rectangle(x1: int, y1: int, x2: int, y2: int, color: Color, thickness: int)
      modifies this
      ensures commands == old(commands) + [DrawRect(x1, y1, x2, y2, color, thickness)]
    {
      commands := commands + [DrawRect(x1, y1, x2, y2, color, thickness)];
    }

    /** `cv2.putText(canvas, text, (x, y), font, scale, color, thickness, line type)`. */
    method PutText(text: string, x: int, y: int, scale: real, color: Color, thickness: int)
      modifies this
      ensures commands == old(commands) + [DrawText(text, x, y, scale, color, thickness)]
    {
      commands := commands + [DrawText(text, x, y, scale, color, thickness)];
    }
  }
}
