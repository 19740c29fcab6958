/**
 The drag controller of `VVSDraggableLayout` (`handleGesture`): a long-press
 gesture drives a state machine that is either idle or holds one drag
 session. Each gesture callback is one `Step`, which returns the next state
 and the effects the callback performs on the collection view, its delegate
 and the views, in order.

 Inputs the collection view answers are carried by the events: the visible
 cells with their frames already in draggable-area coordinates, and the
 index path under the pointer.
 */
module DragController {
  import opened Options
  import opened Geometry
  import opened ClusterLayout

  /** A visible cell: a view identity, its frame in draggable-area
      coordinates, and its index path. */
  datatype VisibleCell = VisibleCell(id: nat, frame: Rect, indexPath: IndexPath)

  /** `DraggedCell`: the pointer's offset from the cell origin, the hidden
      source cell, the preview's frame, and the item's current index path. */
  datatype Session = Session(offset: Point, source: nat, preview: Rect, current: IndexPath)

  datatype DragState = Idle | Dragging(session: Session)

  /** The recogniser's state at each callback, with what the callback reads. */
  datatype Gesture =
    | Possible
    | Began(point: Point, cells: seq<VisibleCell>)
    | Changed(point: Point, hit: Option<IndexPath>)
    | Ended
    | Failed
    | Cancelled

  /** Facts about the surroundings: whether the collection view exists,
      whether the draggable area exists, and whether the delegate set on the
      collection view conforms to the reordering protocol. */
  datatype Env = Env(hasCollectionView: bool, hasDraggableArea: bool, delegateConforms: bool)

  /** A press is hit-tested only when both views exist. */
  predicate Attached(env: Env) {
    env.hasCollectionView && env.hasDraggableArea
  }

  /** The delegate is reached through the collection view, so without one
      there is nobody to notify and no reload. */
  predicate Reorders(env: Env) {
    env.hasCollectionView && env.delegateConforms
  }

  datatype Effect =
    | HideCell(cell: nat)
    | ShowCell(cell: nat)
    | AddPreview(frame: Rect)
    | FadePreview
    | RemovePreview
    | NotifyMoved(from: IndexPath, to: IndexPath)
    | MoveItem(from: IndexPath, to: IndexPath)
    | ReloadData

  datatype Transition = Transition(state: DragState, effects: seq<Effect>)

  predicate Terminal(e: Gesture) {
    e.Ended? || e.Failed? || e.Cancelled?
  }

  /** The position of the first cell whose frame contains `p`. */
  function FirstHit(cells: seq<VisibleCell>, p: Point): (r: Option<nat>)
    ensures r.Some? ==> r.value < |cells| && ContainsPoint(cells[r.value].frame, p)
    ensures r.Some? ==> forall j :: 0 <= j < r.value ==> !ContainsPoint(cells[j].frame, p)
    ensures r.None? <==> forall j :: 0 <= j < |cells| ==> !ContainsPoint(cells[j].frame, p)
  {
    if cells == [] then None
    else if ContainsPoint(cells[0].frame, p) then Some(0)
    else match FirstHit(cells[1..], p)
      case None => None
      case Some(k) => Some(k + 1)
  }

  /** The effects of a session being shown: hide the source cell, add the
      preview at its frame to the draggable area (skipped when there is
      none), start the fade. */
  function ShowSession(env: Env, s: Session): seq<Effect> {
    [HideCell(s.source)] + (if env.hasDraggableArea then [AddPreview(s.preview)] else []) + [FadePreview]
  }

  /** The `Began` branch. The first visible cell containing the press starts a
      session; if none does, the state stays as it was. */
  function Begin(env: Env, state: DragState, p: Point, cells: seq<VisibleCell>): Transition {
    var hit := if Attached(env) then FirstHit(cells, p) else None;
    var state' :=
      match hit
      case Some(k) =>
        var cell := cells[k];
        Dragging(Session(Point(p.x - cell.frame.origin.x, p.y - cell.frame.origin.y),
                         cell.id, cell.frame, cell.indexPath))
      case None => state;
    Transition(state', if state'.Dragging? then ShowSession(env, state'.session) else [])
  }

  /** The `Changed` branch: move the preview under the pointer; if the pointer
      is over another item, notify the delegate (when it conforms) and move
      the item there. */
  function Change(env: Env, state: DragState, p: Point, hitReported: Option<IndexPath>): Transition {
    var hit := if env.hasCollectionView then hitReported else None;
    match state
    case Idle => Transition(Idle, [])
    case Dragging(s) =>
      var moved := s.(preview := Rect(Point(p.x - s.offset.x, p.y - s.offset.y), s.preview.size));
      if hit.Some? && hit.value != s.current then
        Transition(Dragging(moved.(current := hit.value)),
                   (if Reorders(env) then [NotifyMoved(s.current, hit.value)] else [])
                   + [MoveItem(s.current, hit.value)])
      else
        Transition(Dragging(moved), [])
  }

  /** The `Ended`/`Failed`/`Cancelled` branch: restore the source cell, drop
      the preview, reload when the delegate conforms, end the session. */
  function Finish(env: Env, state: DragState): Transition {
    match state
    case Idle => Transition(Idle, [])
    case Dragging(s) =>
      Transition(Idle, [ShowCell(s.source), RemovePreview] + (if Reorders(env) then [ReloadData] else []))
  }

  /** `handleGesture`: one callback of the recogniser. */
  function Step(env: Env, state: DragState, e: Gesture): (t: Transition)
    ensures Terminal(e) ==> t.state == Idle
    ensures state.Idle? && !e.Began? ==> t == Transition(Idle, [])
    ensures e.Possible? ==> t == Transition(state, [])
    ensures e.Began? && t.state.Dragging? ==>
      && |t.effects| > 0 && t.effects[0] == HideCell(t.state.session.source)
      && (AddPreview(t.state.session.preview) in t.effects <==> env.hasDraggableArea)
    ensures e.Began? && t.state.Idle? ==> t.effects == []
  {
    match e
    case Possible => Transition(state, [])
    case Began(p, cells) => Begin(env, state, p, cells)
    case Changed(p, hit) => Change(env, state, p, hit)
    case Ended => Finish(env, state)
    case Failed => Finish(env, state)
    case Cancelled => Finish(env, state)
  }

  /** A sequence of callbacks, effects concatenated in order. */
  function Run(env: Env, state: DragState, events: seq<Gesture>): Transition
    decreases |events|
  {
    if events == [] then Transition(state, [])
    else
      var t := Step(env, state, events[0]);
      var rest := Run(env, t.state, events[1..]);
      Transition(rest.state, t.effects + rest.effects)
  }

  // ---------------------------------------------------------------------
  // Properties of single steps

  /** A press while idle: when some visible cell contains the point, the
      first such cell starts a session with the press-minus-origin offset;
      otherwise nothing happens at all. */
  lemma BeganFromIdle(env: Env, p: Point, cells: seq<VisibleCell>)
    requires Attached(env)
    ensures var t := Step(env, Idle, Began(p, cells));
      && (t.state.Dragging? <==> exists k :: 0 <= k < |cells| && ContainsPoint(cells[k].frame, p))
      && (t.state.Idle? ==> t.effects == [])
      && (t.state.Dragging? ==>
            exists k :: 0 <= k < |cells|
              && ContainsPoint(cells[k].frame, p)
              && (forall j :: 0 <= j < k ==> !ContainsPoint(cells[j].frame, p))
              && t.state.session.current == cells[k].indexPath
              && t.state.session.source == cells[k].id
              && t.state.session.preview == cells[k].frame
              && t.state.session.offset == Point(p.x - cells[k].frame.origin.x, p.y - cells[k].frame.origin.y)
              && t.effects == [HideCell(cells[k].id), AddPreview(cells[k].frame), FadePreview])
  {
  }

  /** A press that hits a cell during a session replaces the session with
      one for the first cell hit. The old session is abandoned: its cell is
      not shown again and its preview is not removed. */
  lemma BeganHitReplacesSession(env: Env, s: Session, p: Point, cells: seq<VisibleCell>, k: nat)
    requires Attached(env)
    requires k < |cells| && ContainsPoint(cells[k].frame, p)
    requires forall j :: 0 <= j < k ==> !ContainsPoint(cells[j].frame, p)
    ensures var t := Step(env, Dragging(s), Began(p, cells));
      && t == Transition(
           Dragging(Session(Point(p.x - cells[k].frame.origin.x, p.y - cells[k].frame.origin.y),
                            cells[k].id, cells[k].frame, cells[k].indexPath)),
           [HideCell(cells[k].id), AddPreview(cells[k].frame), FadePreview])
      && ShowCell(s.source) !in t.effects
      && RemovePreview !in t.effects
  {
  }

  /** A press that misses every cell during a session keeps that session and
      shows it again: the cell is hidden and the fade restarted, and the
      preview is re-added only when there is a draggable area. */
  lemma BeganMissKeepsSession(env: Env, s: Session, p: Point, cells: seq<VisibleCell>)
    requires forall j :: 0 <= j < |cells| ==> !ContainsPoint(cells[j].frame, p)
    ensures env.hasDraggableArea ==>
      Step(env, Dragging(s), Began(p, cells)) == Transition(Dragging(s), [HideCell(s.source), AddPreview(s.preview), FadePreview])
    ensures !env.hasDraggableArea ==>
      Step(env, Dragging(s), Began(p, cells)) == Transition(Dragging(s), [HideCell(s.source), FadePreview])
  {
  }

  /** Without a collection view or draggable area a press starts nothing: an
      idle machine stays idle and silent; a session is kept and shown again,
      with the preview re-added only if the draggable area exists. */
  lemma BeganDetachedKeepsState(env: Env, state: DragState, p: Point, cells: seq<VisibleCell>)
    requires !Attached(env)
    ensures Step(env, state, Began(p, cells)).state == state
    ensures state.Idle? ==> Step(env, state, Began(p, cells)).effects == []
    ensures state.Dragging? && env.hasDraggableArea ==>
      Step(env, state, Began(p, cells)).effects
        == [HideCell(state.session.source), AddPreview(state.session.preview), FadePreview]
    ensures state.Dragging? && !env.hasDraggableArea ==>
      Step(env, state, Began(p, cells)).effects == [HideCell(state.session.source), FadePreview]
  {
  }

  /** A move during a session: the preview's origin becomes pointer minus
      offset; over a different item exactly one notification (when the
      delegate conforms) and one move are emitted and the current index
      follows; otherwise no effect and the index stays. */
  lemma ChangedDuringSession(env: Env, s: Session, p: Point, hit: Option<IndexPath>)
    ensures var t := Step(env, Dragging(s), Changed(p, hit));
      && t.state.Dragging?
      && t.state.session.preview.origin == Point(p.x - s.offset.x, p.y - s.offset.y)
      && t.state.session.preview.size == s.preview.size
      && t.state.session.offset == s.offset
      && t.state.session.source == s.source
      && (env.hasCollectionView && hit.Some? && hit.value != s.current ==>
            && t.state.session.current == hit.value
            && t.effects == (if Reorders(env) then [NotifyMoved(s.current, hit.value)] else [])
                            + [MoveItem(s.current, hit.value)])
      && (!env.hasCollectionView || hit.None? || hit.value == s.current ==>
            t.state.session.current == s.current && t.effects == [])
  {
  }

  /** A release, failure or cancellation during a session ends it, restores
      the cell, removes the preview, and reloads exactly when the delegate
      conforms. */
  lemma TerminalEndsSession(env: Env, s: Session, e: Gesture)
    requires Terminal(e)
    ensures var t := Step(env, Dragging(s), e);
      && t.state == Idle
      && t.effects == [ShowCell(s.source), RemovePreview] + (if Reorders(env) then [ReloadData] else [])
      && (ReloadData in t.effects <==> Reorders(env))
      && Count(t.effects, ReloadData) == (if Reorders(env) then 1 else 0)
  {
  }

  // ---------------------------------------------------------------------
  // Properties of runs

  function Count(effects: seq<Effect>, x: Effect): (n: nat)
    ensures n <= |effects|
    ensures n == 0 <==> x !in effects
  {
    if effects == [] then 0
    else (if effects[0] == x then 1 else 0) + Count(effects[1..], x)
  }

  function CountNotifications(effects: seq<Effect>): nat {
    if effects == [] then 0
    else (if effects[0].NotifyMoved? then 1 else 0) + CountNotifications(effects[1..])
  }

  function CountMoves(effects: seq<Effect>): nat {
    if effects == [] then 0
    else (if effects[0].MoveItem? then 1 else 0) + CountMoves(effects[1..])
  }

  lemma {:induction false} CountsAppend(a: seq<Effect>, b: seq<Effect>)
    ensures CountNotifications(a + b) == CountNotifications(a) + CountNotifications(b)
    ensures CountMoves(a + b) == CountMoves(a) + CountMoves(b)
  {
    if a == [] {
      assert a + b == b;
    } else {
      assert (a + b)[1..] == a[1..] + b;
      CountsAppend(a[1..], b);
    }
  }

  /** Effects that are neither notifications nor moves add nothing to either count. */
  lemma {:induction false} QuietEffectsCountNothing(effects: seq<Effect>)
    requires forall i :: 0 <= i < |effects| ==> !effects[i].NotifyMoved? && !effects[i].MoveItem?
    ensures CountNotifications(effects) == 0 && CountMoves(effects) == 0
  {
    if effects != [] {
      QuietEffectsCountNothing(effects[1..]);
    }
  }

  /** Over any run, each item move comes with one delegate notification when
      the collection view's delegate conforms, and with none otherwise. */
  lemma {:induction false} NotificationsMatchMoves(env: Env, state: DragState, events: seq<Gesture>)
    ensures CountNotifications(Run(env, state, events).effects)
         == (if Reorders(env) then CountMoves(Run(env, state, events).effects) else 0)
    decreases |events|
  {
    if events != [] {
      var t := Step(env, state, events[0]);
      var rest := Run(env, t.state, events[1..]);
      NotificationsMatchMoves(env, t.state, events[1..]);
      CountsAppend(t.effects, rest.effects);
      assert CountNotifications(t.effects) == (if Reorders(env) then CountMoves(t.effects) else 0) by {
        if events[0].Changed? && state.Dragging? && env.hasCollectionView && events[0].hit.Some? && events[0].hit.value != state.session.current {
          var m := MoveItem(state.session.current, events[0].hit.value);
          if Reorders(env) {
            assert t.effects == [NotifyMoved(state.session.current, events[0].hit.value), m];
            assert t.effects[1..] == [m];
          } else {
            assert t.effects == [m];
          }
        } else {
          QuietEffectsCountNothing(t.effects);
        }
      }
    }
  }

  /** Moves that stay over the current item (or over no item) move the
      preview only: no notification, no move, same session identity. */
  lemma {:induction false} MovesWithinCellAreSilent(env: Env, s: Session, events: seq<Gesture>)
    requires forall i :: 0 <= i < |events| ==> events[i].Changed?
    requires forall i :: 0 <= i < |events| ==> events[i].hit.None? || events[i].hit.value == s.current
    ensures var t := Run(env, Dragging(s), events);
      && t.effects == []
      && t.state.Dragging?
      && t.state.session.current == s.current
      && t.state.session.offset == s.offset
      && t.state.session.source == s.source
    decreases |events|
  {
    if events != [] {
      var t := Step(env, Dragging(s), events[0]);
      assert t.effects == [] && t.state.Dragging?;
      var s' := t.state.session;
      assert s'.current == s.current && s'.offset == s.offset && s'.source == s.source;
      MovesWithinCellAreSilent(env, s', events[1..]);
    }
  }

  /** Every event with no session other than a press changes nothing. */
  lemma {:induction false} IdleIgnoresAllButBegan(env: Env, events: seq<Gesture>)
    requires forall i :: 0 <= i < |events| ==> !events[i].Began?
    ensures Run(env, Idle, events) == Transition(Idle, [])
    decreases |events|
  {
    if events != [] {
      IdleIgnoresAllButBegan(env, events[1..]);
    }
  }
}
