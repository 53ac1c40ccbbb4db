// The navigation state of the first-generation image viewer (PhotoViewer.py
// at the repository root). It steps through a list of image paths with the
// same wrap-around as the later viewer, but a single path given to
// `setImage` always clears the list, and there is no delete action.

module LegacyPhotoViewer {
  import opened Outcomes
  import Lists
  import PhotoViewer

  class ImageViewer {
    var imageList: seq<string>
    var imageShowing: Option<int>
    /** The path of the image on screen. */
    var showing: Option<string>
    /** Whether Back and Next are enabled; the code always switches the two together. */
    var navEnabled: bool

    predicate InRange()
      reads this
    {
      imageShowing.Some? && 0 <= imageShowing.value < |imageList|
    }

    constructor ()
      ensures imageList == [] && imageShowing == None && showing == None && navEnabled
    {
      imageList, imageShowing, showing, navEnabled := [], None, None, true;
    }

    /** `setImage(paths, index)`: IndexError, after the list and position are replaced, when the position is outside the list. */
    method SetImageList(paths: seq<string>, index: int) returns (r: Result<()>)
      modifies this
      ensures imageList == paths && imageShowing == Some(index)
      ensures r.Ok? <==> Lists.NormIndex(index, |paths|).Some?
      ensures r.Err? ==> r.error == IndexError && showing == old(showing) && navEnabled == old(navEnabled)
      ensures r.Ok? ==> showing == Some(paths[Lists.NormIndex(index, |paths|).value]) && navEnabled
    {
      imageList, imageShowing := paths, Some(index);
      r := Show(index);
    }

    /** `setImage(index)`: only the position changes; IndexError when it is outside the list. */
    method SetImageIndex(index: int) returns (r: Result<()>)
      modifies this
      ensures imageList == old(imageList) && imageShowing == Some(index)
      ensures r.Ok? <==> Lists.NormIndex(index, |imageList|).Some?
      ensures r.Err? ==> r.error == IndexError && showing == old(showing) && navEnabled == old(navEnabled)
      ensures r.Ok? ==> showing == Some(imageList[Lists.NormIndex(index, |imageList|).value]) && navEnabled
    {
      imageShowing := Some(index);
      r := Show(index);
    }

    method Show(index: int) returns (r: Result<()>)
      modifies this`showing, this`navEnabled
      ensures r.Ok? <==> Lists.NormIndex(index, |imageList|).Some?
      ensures r.Err? ==> r.error == IndexError && showing == old(showing) && navEnabled == old(navEnabled)
      ensures r.Ok? ==> showing == Some(imageList[Lists.NormIndex(index, |imageList|).value]) && navEnabled
    {
      match Lists.NormIndex(index, |imageList|)
      case None =>
        r := Err(IndexError);
      case Some(k) =>
        navEnabled := true;
        showing := Some(imageList[k]);
        r := Ok(());
    }

    /** `setImage(path)`: the path is shown alone, whether or not it is in the list. */
    method SetImagePath(path: string)
      modifies this
      ensures showing == Some(path) && imageList == [] && imageShowing == None && !navEnabled
    {
      imageList, imageShowing, showing, navEnabled := [], None, Some(path), false;
    }

    /** `on_back`: one image back, wrapping from the first to the last; TypeError when no position is set. */
    method OnBack() returns (r: Result<()>)
      modifies this
      ensures old(imageShowing).None? ==> r == Err(TypeError) && unchanged(this)
      ensures old(imageShowing).Some? ==> imageShowing == Some(PhotoViewer.BackIndex(old(imageShowing).value, |imageList|))
      ensures imageList == old(imageList)
      ensures old(InRange()) ==> InRange() && r.Ok? && showing == Some(imageList[imageShowing.value])
    {
      match imageShowing
      case None =>
        r := Err(TypeError);
      case Some(i) =>
        r := SetImageIndex(PhotoViewer.BackIndex(i, |imageList|));
    }

    /** `on_next`: one image on, wrapping from the last to the first; TypeError when no position is set. */
    method OnNext() returns (r: Result<()>)
      modifies this
      ensures old(imageShowing).None? ==> r == Err(TypeError) && unchanged(this)
      ensures old(imageShowing).Some? ==> imageShowing == Some(PhotoViewer.NextIndex(old(imageShowing).value, |imageList|))
      ensures imageList == old(imageList)
      ensures old(InRange()) ==> InRange() && r.Ok? && showing == Some(imageList[imageShowing.value])
    {
      match imageShowing
      case None =>
        r := Err(TypeError);
      case Some(i) =>
        r := SetImageIndex(PhotoViewer.NextIndex(i, |imageList|));
    }
  }
}
