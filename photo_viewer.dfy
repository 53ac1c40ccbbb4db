// The navigation state of the image viewer (src/PhotoViewer.py): the list of
// photos it steps through, the position shown, and the Back/Next actions.
// Pixmaps, window titles, the status bar and the tag view are presentation
// and are not modelled; the photo on screen is recorded in `showing`.

module PhotoViewer {
  import opened Outcomes
  import Lists

  /** Where `on_next` moves from position `i` in a list of `n`: past the last photo it wraps to 0. */
  function NextIndex(i: int, n: nat): (r: int)
    ensures 0 <= i < n ==> 0 <= r < n
    ensures 0 <= i < n - 1 ==> r == i + 1
  {
    if i == n - 1 then 0 else i + 1
  }

  /** Where `on_back` moves from position `i` in a list of `n`: before the first photo it wraps to the last. */
  function BackIndex(i: int, n: nat): (r: int)
    ensures 0 <= i < n ==> 0 <= r < n
    ensures 0 < i < n ==> r == i - 1
  {
    if i == 0 then n - 1 else i - 1
  }

  /** Next then Back comes back to the same photo. */
  lemma BackAfterNext(i: int, n: nat)
    requires 0 <= i < n
    ensures BackIndex(NextIndex(i, n), n) == i
  {
  }

  /** Back then Next comes back to the same photo. */
  lemma NextAfterBack(i: int, n: nat)
    requires 0 <= i < n
    ensures NextIndex(BackIndex(i, n), n) == i
  {
  }

  /** The position `on_delete` shows after popping the photo at `i` from a list that now holds `n`. */
  function AfterDelete(i: int, n: nat): (r: int)
    ensures i >= n ==> r == n - 1
    ensures i < n ==> r == i
  {
    if i >= n then n - 1 else i
  }

  /** Deleting from a list that keeps at least one photo leaves a position inside it. */
  lemma AfterDeleteInRange(i: int, n: nat)
    requires 0 <= i <= n && n > 0
    ensures 0 <= AfterDelete(i, n) < n
  {
  }

  class ImageViewer<P(==)> {
    var imageList: seq<P>
    var imageShowing: Option<int>
    /** The photo on screen. */
    var showing: Option<P>
    /** Whether Back and Next are enabled; the code always switches the two together. */
    var navEnabled: bool
    var closed: bool
    /** The photos handed to `sigDelete`, oldest first. */
    var deleted: seq<P>

    /** A position inside the list is shown. */
    predicate InRange()
      reads this
    {
      imageShowing.Some? && 0 <= imageShowing.value < |imageList|
    }

    /** A new viewer: no photos, nothing shown, and Qt's actions start enabled. */
    constructor ()
      ensures imageList == [] && imageShowing == None && showing == None
      ensures navEnabled && !closed && deleted == []
    {
      imageList, imageShowing, showing := [], None, None;
      navEnabled, closed, deleted := true, false, [];
    }

    /**
     * `setImage(photos, index)`: the list and position are replaced first;
     * reading the photo at that position then raises IndexError when it is
     * outside the list.
     */
    method SetImageList(photos: seq<P>, index: int) returns (r: Result<()>)
      modifies this
      ensures imageList == photos && imageShowing == Some(index)
      ensures r.Ok? <==> Lists.NormIndex(index, |photos|).Some?
      ensures r.Err? ==> r.error == IndexError && showing == old(showing) && navEnabled == old(navEnabled)
      ensures r.Ok? ==> showing == Some(photos[Lists.NormIndex(index, |photos|).value]) && navEnabled
      ensures closed == old(closed) && deleted == old(deleted)
    {
      imageList, imageShowing := photos, Some(index);
      r := Show(index);
    }

    /** `setImage(index)`: only the position changes; IndexError when it is outside the list. */
    method SetImageIndex(index: int) returns (r: Result<()>)
      modifies this
      ensures imageList == old(imageList) && imageShowing == Some(index)
      ensures r.Ok? <==> Lists.NormIndex(index, |imageList|).Some?
      ensures r.Err? ==> r.error == IndexError && showing == old(showing) && navEnabled == old(navEnabled)
      ensures r.Ok? ==> showing == Some(imageList[Lists.NormIndex(index, |imageList|).value]) && navEnabled
      ensures closed == old(closed) && deleted == old(deleted)
    {
      imageShowing := Some(index);
      r := Show(index);
    }

    /** Shows the photo at `index` of the current list, enabling navigation. */
    method Show(index: int) returns (r: Result<()>)
      modifies this`showing, this`navEnabled
      ensures r.Ok? <==> Lists.NormIndex(index, |imageList|).Some?
      ensures r.Err? ==> r.error == IndexError && showing == old(showing) && navEnabled == old(navEnabled)
      ensures r.Ok? ==> showing == Some(imageList[Lists.NormIndex(index, |imageList|).value]) && navEnabled
    {
      match Lists.NormIndex(index, |imageList|)
      case None =>
        r := Err(IndexError);
      case Some(k) =>
        navEnabled := true;
        showing := Some(imageList[k]);
        r := Ok(());
    }

    /**
     * `setImage(photo)`: a photo in the list is shown at its first position;
     * any other photo is shown alone, the list is cleared and Back/Next are
     * disabled.
     */
    method SetImagePhoto(photo: P)
      modifies this
      ensures showing == Some(photo)
      ensures photo in old(imageList) ==>
        imageList == old(imageList) && imageShowing == Some(Lists.IndexOf(imageList, photo).value) && navEnabled
      ensures photo !in old(imageList) ==> imageList == [] && imageShowing == None && !navEnabled
      ensures imageShowing.Some? ==> imageList[imageShowing.value] == photo
      ensures closed == old(closed) && deleted == old(deleted)
    {
      showing := Some(photo);
      match Lists.IndexOf(imageList, photo)
      case Some(k) =>
        imageShowing := Some(k);
        navEnabled := true;
      case None =>
        imageList, imageShowing := [], None;
        navEnabled := false;
    }

    /** `on_back`: one photo back, wrapping from the first to the last; TypeError when no position is set. */
    method OnBack() returns (r: Result<()>)
      modifies this
      ensures old(imageShowing).None? ==> r == Err(TypeError) && imageShowing == None && showing == old(showing)
      ensures old(imageShowing).Some? ==> imageShowing == Some(BackIndex(old(imageShowing).value, |imageList|))
      ensures imageList == old(imageList) && closed == old(closed) && deleted == old(deleted)
      ensures old(InRange()) ==> InRange() && r.Ok? && showing == Some(imageList[imageShowing.value])
    {
      match imageShowing
      case None =>
        r := Err(TypeError);
      case Some(i) =>
        r := SetImageIndex(BackIndex(i, |imageList|));
    }

    /** `on_next`: one photo on, wrapping from the last to the first; TypeError when no position is set. */
    method OnNext() returns (r: Result<()>)
      modifies this
      ensures old(imageShowing).None? ==> r == Err(TypeError) && imageShowing == None && showing == old(showing)
      ensures old(imageShowing).Some? ==> imageShowing == Some(NextIndex(old(imageShowing).value, |imageList|))
      ensures imageList == old(imageList) && closed == old(closed) && deleted == old(deleted)
      ensures old(InRange()) ==> InRange() && r.Ok? && showing == Some(imageList[imageShowing.value])
    {
      match imageShowing
      case None =>
        r := Err(TypeError);
      case Some(i) =>
        r := SetImageIndex(NextIndex(i, |imageList|));
    }

    /**
     * `on_delete`: the photo shown is handed to `sigDelete` and popped from
     * the list; an emptied viewer closes, otherwise the same position is
     * shown again, moved back to the new last photo when it is past the end.
     */
    method OnDelete() returns (r: Result<()>)
      modifies this
      ensures old(imageShowing).None? ==> r == Err(TypeError) && unchanged(this)
      ensures old(imageShowing).Some? && Lists.NormIndex(old(imageShowing).value, |old(imageList)|).None? ==>
        r == Err(IndexError) && unchanged(this)
      ensures old(InRange()) ==>
        var i := old(imageShowing).value;
        deleted == old(deleted) + [old(imageList)[i]]
        && imageList == Lists.RemoveAt(old(imageList), i)
        && (|imageList| == 0 ==> closed && r.Ok?)
        && (|imageList| > 0 ==>
              closed == old(closed) && r.Ok? && imageShowing == Some(AfterDelete(i, |imageList|)) && InRange()
              && showing == Some(imageList[imageShowing.value]))
    {
      match imageShowing
      case None =>
        r := Err(TypeError);
      case Some(i) =>
        match Lists.NormIndex(i, |imageList|)
        case None =>
          r := Err(IndexError);
        case Some(k) =>
          deleted := deleted + [imageList[k]];
          imageList := Lists.RemoveAt(imageList, k);
          if |imageList| == 0 {
            closed := true;
            r := Ok(());
          } else {
            if 0 <= i {
              AfterDeleteInRange(i, |imageList|);
            }
            r := SetImageIndex(AfterDelete(i, |imageList|));
          }
    }
  }
}
