/**
 * The slit preview component: what it draws for a list of slits, and the
 * fetch -> state -> draw life cycle around it.
 *
 * The sky viewer library is abstracted away: a viewer is recorded by the
 * target it was centred on and the append-only list of items added to its
 * overlay. The slit angle reaches the geometry through `rotationOf`, which
 * stands for taking the cosine and sine of the angle in radians.
 */
module SlitOverlay {
  import opened Wrappers
  import opened SkyCoords

  /** One feature of the mask response; `width` and `aLen` are in arc-minutes, `angle` in degrees. */
  datatype Slit = Slit(
    kind: string, id: string, ra: string, dec: string,
    x: real, y: real, width: real, aLen: real, bLen: real, angle: real)

  /** A sky position; either coordinate may be NaN (`None`). */
  datatype SkyPoint = SkyPoint(ra: Option<real>, dec: Option<real>)

  datatype OverlayItem =
    | Polygon(corners: seq<SkyPoint>)
    | Label(ra: Option<real>, dec: Option<real>, text: string)

  function OrNaN(defined: bool, v: real): Option<real> {
    if defined then Some(v) else None
  }

  /**
   * The slit outline: a `width` by `aLen` rectangle (both converted from
   * arc-minutes) around the slit centre. A NaN right ascension makes every
   * corner's right ascension NaN, and likewise for declination, because the
   * centre coordinate is added to each rotated offset.
   */
  function SlitPolygon(slit: Slit, rot: Rotation): OverlayItem {
    var ra := RaStringToDeg(slit.ra);
    var dec := DecStringToDeg(slit.dec);
    var corners := ComputeRectangleCorners(
      ra.GetOr(0.0), dec.GetOr(0.0), ArcminToDeg(slit.width), ArcminToDeg(slit.aLen), rot);
    Polygon(seq(4, i requires 0 <= i < 4 => SkyPoint(OrNaN(ra.Some?, corners[i].x), OrNaN(dec.Some?, corners[i].y))))
  }

  /** The slit's label, at the slit centre, showing its id. */
  function SlitLabel(slit: Slit): OverlayItem {
    Label(RaStringToDeg(slit.ra), DecStringToDeg(slit.dec), slit.id)
  }

  /** `f(x)` then `g(x)` for every `x` of `xs`, in order. */
  function Interleaved<T, U>(xs: seq<T>, f: T -> U, g: T -> U): seq<U>
    decreases |xs|
  {
    if xs == [] then []
    else Interleaved(xs[..|xs| - 1], f, g) + [f(xs[|xs| - 1]), g(xs[|xs| - 1])]
  }

  /** Item `2j` is `f(xs[j])` and item `2j+1` is `g(xs[j])`. */
  lemma {:induction false} InterleavedLayout<T, U>(xs: seq<T>, f: T -> U, g: T -> U)
    ensures |Interleaved(xs, f, g)| == 2 * |xs|
    ensures forall j :: 0 <= j < |xs| ==>
      Interleaved(xs, f, g)[2 * j] == f(xs[j]) && Interleaved(xs, f, g)[2 * j + 1] == g(xs[j])
    decreases |xs|
  {
    if xs != [] {
      var front := xs[..|xs| - 1];
      var items, before := Interleaved(xs, f, g), Interleaved(front, f, g);
      InterleavedLayout(front, f, g);
      forall j | 0 <= j < |xs|
        ensures items[2 * j] == f(xs[j]) && items[2 * j + 1] == g(xs[j])
      {
        if j < |front| {
          assert xs[j] == front[j];
          assert items[2 * j] == before[2 * j] && items[2 * j + 1] == before[2 * j + 1];
        }
      }
    }
  }

  function SlitOutline(rotationOf: real -> Rotation): Slit -> OverlayItem {
    (slit: Slit) => SlitPolygon(slit, rotationOf(slit.angle))
  }

  /** The overlay after drawing `slits` in order: a polygon and then a label per slit. */
  function DrawnItems(slits: seq<Slit>, rotationOf: real -> Rotation): seq<OverlayItem> {
    Interleaved(slits, SlitOutline(rotationOf), SlitLabel)
  }

  /** Two items per slit, in slit order: item `2j` is slit `j`'s polygon and item `2j+1` its label. */
  lemma DrawnItemsLayout(slits: seq<Slit>, rotationOf: real -> Rotation)
    ensures |DrawnItems(slits, rotationOf)| == 2 * |slits|
    ensures forall j :: 0 <= j < |slits| ==>
      && DrawnItems(slits, rotationOf)[2 * j] == SlitPolygon(slits[j], rotationOf(slits[j].angle))
      && DrawnItems(slits, rotationOf)[2 * j + 1] == SlitLabel(slits[j])
  {
    InterleavedLayout(slits, SlitOutline(rotationOf), SlitLabel);
  }

  lemma DrawnItemsCount(slits: seq<Slit>, rotationOf: real -> Rotation)
    ensures |DrawnItems(slits, rotationOf)| == 2 * |slits|
  {
    DrawnItemsLayout(slits, rotationOf);
  }

  /** With a defined centre the polygon is exactly the rotated rectangle of `width / 60` by `aLen / 60`. */
  lemma SlitPolygonOfDefinedCentre(slit: Slit, rot: Rotation, ra: real, dec: real)
    requires RaStringToDeg(slit.ra) == Some(ra) && DecStringToDeg(slit.dec) == Some(dec)
    ensures var corners := ComputeRectangleCorners(ra, dec, slit.width / 60.0, slit.aLen / 60.0, rot);
      SlitPolygon(slit, rot) == Polygon(seq(4, i requires 0 <= i < 4 => SkyPoint(Some(corners[i].x), Some(corners[i].y))))
  {
  }

  /** `bLen`, `x`, `y` and `kind` play no part in what is drawn. */
  lemma DrawingIgnoresUnusedFields(slit: Slit, rot: Rotation, bLen: real, x: real, y: real, kind: string)
    ensures SlitPolygon(slit.(bLen := bLen, x := x, y := y, kind := kind), rot) == SlitPolygon(slit, rot)
    ensures SlitLabel(slit.(bLen := bLen, x := x, y := y, kind := kind)) == SlitLabel(slit)
  {
  }

  /** The `forEach` over the slits, adding to the overlay. */
  method DrawSlits(slits: seq<Slit>, rotationOf: real -> Rotation) returns (overlay: seq<OverlayItem>)
    ensures overlay == DrawnItems(slits, rotationOf)
  {
    overlay := [];
    var i := 0;
    while i < |slits|
      invariant 0 <= i <= |slits|
      invariant overlay == DrawnItems(slits[..i], rotationOf)
    {
      var slit := slits[i];
      var poly := SlitPolygon(slit, rotationOf(slit.angle));
      overlay := overlay + [poly];
      var caption := SlitLabel(slit);
      overlay := overlay + [caption];
      assert slits[..i + 1][..i] == slits[..i];
      i := i + 1;
    }
    assert slits[..i] == slits;
  }

  // ----- the component -----

  /** The mask centre kept in the component's ref. */
  datatype MaskCenter = MaskCenter(centerRa: string, centerDec: string)

  /** The ref's value before any successful fetch. */
  const DefaultCenter := MaskCenter("10 00 00", "+02 23 00")

  /** The parsed body of a successful mask response; `features` may be absent. */
  datatype MaskBody = MaskBody(center: MaskCenter, features: Option<seq<Slit>>)

  /** How a fetch settles: an OK response, a non-OK status, or a thrown error (network, JSON). */
  datatype Response = Success(body: MaskBody) | HttpError(status: int) | Failure

  /** One run of the draw effect that got as far as waiting for the viewer library. */
  datatype DrawEffect = DrawEffect(slits: seq<Slit>, fired: bool)

  /** A viewer created by a draw effect: its target text and its overlay. */
  datatype Viewer = Viewer(target: string, overlay: seq<OverlayItem>)

  function Target(c: MaskCenter): string {
    c.centerRa + " " + c.centerDec
  }

  class SlitsView {
    var mounted: bool
    var slits: seq<Slit>
    var error: bool
    var maskData: MaskCenter
    /** Every draw effect that registered an init continuation, oldest first. */
    var effects: seq<DrawEffect>
    /** The effect whose cleanup has not run yet; every other effect is disposed. */
    var live: Option<nat>
    var viewers: seq<Viewer>

    /** The placeholder text is rendered instead of the viewer container. */
    predicate ShowsPlaceholder()
      reads this
    {
      error || |slits| == 0
    }

    /** The container element exists. */
    predicate HasContainer()
      reads this
    {
      mounted && !ShowsPlaceholder()
    }

    predicate Disposed(k: nat)
      reads this
    {
      live != Some(k)
    }

    ghost predicate Valid()
      reads this
    {
      && (live.Some? ==> live.value < |effects| && effects[live.value].slits == slits && mounted)
      && (forall k :: 0 <= k < |effects| ==> |effects[k].slits| > 0)
      && (forall v :: 0 <= v < |viewers| ==> |viewers[v].overlay| > 0 && |viewers[v].overlay| % 2 == 0)
    }

    /** First render: no slits, no error, the default centre; the draw effect stops at its guard. */
    constructor Mount()
      ensures Valid()
      ensures mounted && slits == [] && !error && maskData == DefaultCenter
      ensures effects == [] && live == None && viewers == []
    {
      mounted := true;
      slits := [];
      error := false;
      maskData := DefaultCenter;
      effects := [];
      live := None;
      viewers := [];
    }

    /**
     * The draw effect, re-run because `slits` changed: the previous run's
     * cleanup disposes it, then a new continuation is registered only when
     * the container exists and the viewer library is loaded.
     */
    method RerunDrawEffect(libraryLoaded: bool)
      requires live.Some? ==> live.value < |effects| && mounted
      requires forall k :: 0 <= k < |effects| ==> |effects[k].slits| > 0
      requires forall v :: 0 <= v < |viewers| ==> |viewers[v].overlay| > 0 && |viewers[v].overlay| % 2 == 0
      modifies this
      ensures Valid()
      ensures mounted == old(mounted) && slits == old(slits) && error == old(error)
      ensures maskData == old(maskData) && viewers == old(viewers)
      ensures HasContainer() && libraryLoaded ==>
        effects == old(effects) + [DrawEffect(slits, false)] && live == Some(|old(effects)|)
      ensures !(HasContainer() && libraryLoaded) ==> effects == old(effects) && live == None
    {
      live := None;
      if HasContainer() && libraryLoaded {
        live := Some(|effects|);
        effects := effects + [DrawEffect(slits, false)];
      }
    }

    /**
     * The fetch settles. Success stores the centre, replaces the slits by
     * the features (or none) and clears the error, which re-runs the draw
     * effect; any failure only sets the error. An unmounted component
     * ignores state updates.
     */
    method FetchSettled(response: Response, libraryLoaded: bool)
      requires Valid()
      modifies this
      ensures Valid()
      ensures !old(mounted) ==> unchanged(this)
      ensures mounted == old(mounted) && viewers == old(viewers)
      ensures old(mounted) && response.Success? ==>
        && slits == response.body.features.GetOr([]) && !error && maskData == response.body.center
        && (if |slits| > 0 && libraryLoaded
            then effects == old(effects) + [DrawEffect(slits, false)] && live == Some(|old(effects)|)
            else effects == old(effects) && live == None)
      ensures old(mounted) && !response.Success? ==>
        && error && slits == old(slits) && maskData == old(maskData)
        && effects == old(effects) && live == old(live)
    {
      if !mounted {
        return;
      }
      match response
      case Success(body) =>
        maskData := body.center;
        slits := body.features.GetOr([]);
        error := false;
        RerunDrawEffect(libraryLoaded);
      case HttpError(_) =>
        error := true;
      case Failure =>
        error := true;
    }

    /**
     * The viewer library finishes loading and runs effect `k`'s continuation,
     * once. It draws only if the effect is not disposed and the container
     * still exists, centring the new viewer on the mask data current at that
     * moment and drawing the slits the effect was created with.
     */
    method InitResolved(k: nat, rotationOf: real -> Rotation)
      requires Valid()
      requires k < |effects|
      modifies this
      ensures Valid()
      ensures mounted == old(mounted) && slits == old(slits) && error == old(error)
      ensures maskData == old(maskData) && live == old(live)
      ensures effects == old(effects)[k := old(effects[k]).(fired := true)]
      ensures !old(effects[k].fired) && !old(Disposed(k)) && old(HasContainer()) ==>
        viewers == old(viewers) + [Viewer(Target(maskData), DrawnItems(old(effects[k].slits), rotationOf))]
      ensures old(effects[k].fired) || old(Disposed(k)) || !old(HasContainer()) ==>
        viewers == old(viewers)
    {
      var effect := effects[k];
      effects := effects[k := effect.(fired := true)];
      if effect.fired || Disposed(k) || !HasContainer() {
        return;
      }
      var overlay := DrawSlits(effect.slits, rotationOf);
      DrawnItemsCount(effect.slits, rotationOf);
      viewers := viewers + [Viewer(Target(maskData), overlay)];
    }

    /** Unmounting runs the live effect's cleanup and removes the container. */
    method Unmount()
      requires Valid()
      modifies this
      ensures Valid()
      ensures !mounted && live == None
      ensures slits == old(slits) && error == old(error) && maskData == old(maskData)
      ensures effects == old(effects) && viewers == old(viewers)
    {
      live := None;
      mounted := false;
    }
  }

  /** In any reachable state, every viewer shows at least one slit: two items per slit. */
  lemma ViewerOverlaysAreWhole(view: SlitsView, v: nat)
    requires view.Valid() && v < |view.viewers|
    ensures |view.viewers[v].overlay| >= 2
  {
  }
}
