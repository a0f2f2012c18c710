/** The stepper: when models arrive faster than frames are drawn, which of them is shown, and when. */
module VirtualDomStepper {
  import opened Basics
  import opened VirtualDomFacts
  import opened VirtualDom
  import opened VirtualDomShape
  import opened VirtualDomPatch
  import opened VirtualDomRenderer

  datatype Phase = NoRequest | PendingRequest | ExtraRequest

  /** The stepper's variables: the model whose view is drawn, the latest model, and how many calls of
      `updateIfNeeded` have been asked of the browser. */
  datatype Pacing<M> = Pacing(phase: Phase, drawn: M, next: M, frames: nat)

  /** A new model. */
  function Stepped<M>(s: Pacing<M>, model: M): Pacing<M> {
    Pacing(PendingRequest, s.drawn, model, if s.phase.NoRequest? then s.frames + 1 else s.frames)
  }

  /** `updateIfNeeded`, called by the browser. */
  function Drawn<M>(s: Pacing<M>): Outcome<Pacing<M>>
    requires s.frames > 0
  {
    match s.phase
    case NoRequest => Crash
    case PendingRequest => Done(Pacing(ExtraRequest, s.next, s.next, s.frames))
    case ExtraRequest => Done(s.(phase := NoRequest, frames := s.frames - 1))
  }

  /** One call is pending unless nothing is to be drawn, and then the latest model is drawn. */
  predicate Paced<M(==)>(s: Pacing<M>, latest: M) {
    && s.frames == (if s.phase.NoRequest? then 0 else 1)
    && (if s.phase.PendingRequest? then s.next == latest else s.drawn == latest)
  }

  datatype Event<M> = NewModel(model: M) | Frame

  function Run<M>(start: M, events: seq<Event<M>>): Outcome<Pacing<M>> {
    if events == [] then Done(Pacing(NoRequest, start, start, 0))
    else
      var s :- Run(start, events[..|events| - 1]);
      match events[|events| - 1]
      case NewModel(m) => Done(Stepped(s, m))
      case Frame => if s.frames == 0 then Done(s) else Drawn(s)
  }

  function Latest<M>(start: M, events: seq<Event<M>>): M {
    if events == [] then start
    else if events[|events| - 1].NewModel? then events[|events| - 1].model
    else Latest(start, events[..|events| - 1])
  }

  /** In no run is a frame drawn that nobody asked for, and none is forgotten. */
  lemma {:induction false} RunPaced<M>(start: M, events: seq<Event<M>>)
    ensures Run(start, events).Done? && Paced(Run(start, events).value, Latest(start, events))
    decreases |events|
  {
    if events != [] {
      RunPaced(start, events[..|events| - 1]);
    }
  }

  /** After any run one frame draws the latest model, and two bring the stepper to rest. */
  lemma RestsAfterTwo<M>(start: M, events: seq<Event<M>>)
    ensures Run(start, events + [Frame]).Done? && Run(start, events + [Frame]).value.drawn == Latest(start, events)
    ensures Run(start, events + [Frame] + [Frame]).Done?
    ensures Run(start, events + [Frame] + [Frame]).value.phase.NoRequest?
  {
    var one, two := events + [Frame], events + [Frame] + [Frame];
    assert one[..|events|] == events && two[..|one|] == one;
    RunPaced(start, events);
    RunPaced(start, one);
    RunPaced(start, two);
  }

  /** How many frames have come since the last new model, if there has been one. */
  function FramesSince<M>(events: seq<Event<M>>): Option<nat> {
    if events == [] then None
    else if events[|events| - 1].NewModel? then Some(0)
    else
      match FramesSince(events[..|events| - 1])
      case None => None
      case Some(n) => Some(n + 1)
  }

  /** A new model asks for a frame, the frame that draws it for one more, and that one for none; models that come in
      between ask for none of their own. */
  lemma {:induction false} RequestsExactly<M>(start: M, events: seq<Event<M>>)
    ensures Run(start, events).Done?
    ensures var (s, n) := (Run(start, events).value, FramesSince(events));
            && s.frames == (if n.Some? && n.value < 2 then 1 else 0)
            && s.phase == (if n == Some(0) then PendingRequest else if n == Some(1) then ExtraRequest else NoRequest)
    decreases |events|
  {
    if events != [] {
      RequestsExactly(start, events[..|events| - 1]);
    }
  }

  class Stepper<M(==)> {
    const renderer: Renderer
    const view: M -> VNode
    ghost const parentNode: Id
    var state: Phase
    var currNode: VNode
    var nextModel: M
    var domNode: Id
    ghost var drawn: M
    ghost var frames: nat
    ghost var t: IdTree

    ghost function Pace(): Pacing<M>
      reads this
    {
      Pacing(state, drawn, nextModel, frames)
    }

    /** The document shows, below the node of the page, the view of the model that is said to be drawn. */
    ghost predicate Valid()
      reads this, renderer
    {
      && currNode == view(drawn) && Drawable(view(drawn)) && Drawable(view(nextModel))
      && t.id == domNode && Rooted(renderer.doc, t, currNode, Some(parentNode))
    }

    /** `normalRenderer`: the first view is rendered at once. */
    constructor (renderer: Renderer, view: M -> VNode, parentNode: Id, initialModel: M)
      requires DocOk(renderer.doc) && IsElement(renderer.doc, parentNode) && Drawable(view(initialModel))
      modifies renderer
      ensures this.renderer == renderer && this.view == view && this.parentNode == parentNode
      ensures Valid() && Pace() == Pacing(NoRequest, initialModel, initialModel, 0)
    {
      var initialVirtualNode := view(initialModel);
      var root; ghost var tree;
      root, tree := renderer.RenderBelow(parentNode, initialVirtualNode);
      this.renderer, this.view, this.parentNode := renderer, view, parentNode;
      state, currNode, nextModel, domNode := NoRequest, initialVirtualNode, initialModel, root;
      drawn, frames, t := initialModel, 0, tree;
    }

    /** `stepper`: a new model arrives. */
    method Step(model: M)
      requires Valid() && Drawable(view(model))
      modifies this
      ensures Valid() && Pace() == Stepped(old(Pace()), model)
    {
      if state == NoRequest {
        frames := frames + 1;
      }
      state, nextModel := PendingRequest, model;
    }

    /** `updateIfNeeded`: what is shown after a frame is the view of the model that the pacing says. */
    method UpdateIfNeeded(same: Sharing) returns (r: Outcome<()>)
      requires Valid() && frames > 0 && Sound(same)
      modifies this, renderer
      ensures if r.Crash? then Drawn(old(Pace())).Crash? else Valid() && Drawn(old(Pace())) == Done(Pace())
    {
      match state
      case NoRequest =>
        return Crash;
      case PendingRequest =>
        state := ExtraRequest;
        var nextNode := view(nextModel);
        PlainMatches(same, currNode, nextNode, 0);
        var root;
        root, t := renderer.Rerender(same, domNode, currNode, nextNode, t, Some(parentNode));
        domNode, currNode, drawn := root.value, nextNode, nextModel;
        return Done(());
      case ExtraRequest =>
        state, frames := NoRequest, frames - 1;
        return Done(());
    }
  }

  /** Views as `text` and `node` build them, whose attributes can always be reached. */
  ghost predicate Drawable(v: VNode) {
    Built(v) && Plain(v)
  }
}
