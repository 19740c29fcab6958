/**
 A worked drag over a 375-point-wide container with the default spacing:
 twelve visible cells laid out by the cluster, a press inside item 3, a move
 over item 7, and a release.
 */
module DragScenario {
  import opened Options
  import opened Geometry
  import opened ClusterLayout
  import opened DragController

  function ScenarioGeometry(): ClusterGeometry {
    ClusterGeometry(375.0, DefaultSpacing)
  }

  /** The visible cells: item k is view k at its laid-out frame (the
      collection view and the draggable area share coordinates here). */
  function ScenarioCells(): (cells: seq<VisibleCell>)
    ensures |cells| == 12
  {
    var attrs := SectionAttributes(ScenarioGeometry(), 0, 12);
    seq(12, k requires 0 <= k < 12 => VisibleCell(k, attrs[k].frame, attrs[k].indexPath))
  }

  lemma ScenarioCellFrames()
    ensures ScenarioCells()[3].frame == Square(255.0, 255.0, 105.0)
    ensures forall k :: 0 <= k < 12 ==> ScenarioCells()[k].indexPath == IndexPath(0, k)
    ensures ScenarioCells()[0].frame == Square(15.0, 15.0, 225.0)
    ensures ScenarioCells()[1].frame == Square(255.0, 15.0, 105.0)
    ensures ScenarioCells()[2].frame == Square(255.0, 135.0, 105.0)
    ensures ScenarioCells()[7].frame == ScenarioCells()[1].frame
    ensures ScenarioCells()[9].frame == ScenarioCells()[3].frame
  {
  }

  /** The press at (300, 300) lies in item 3 and in nothing before it, so item
      3 (not item 9, which shares its frame) is picked up; the move over item
      7 notifies and moves 3 to 7 once; the release reloads once. */
  lemma {:induction false} PressMoveRelease()
    ensures var env := Env(true, true, true);
      var press := Began(Point(300.0, 300.0), ScenarioCells());
      var move := Changed(Point(300.0, 50.0), Some(IndexPath(0, 7)));
      var t := Run(env, Idle, [press, move, Ended]);
      && t.state == Idle
      && t.effects == [HideCell(3), AddPreview(Square(255.0, 255.0, 105.0)), FadePreview,
                       NotifyMoved(IndexPath(0, 3), IndexPath(0, 7)),
                       MoveItem(IndexPath(0, 3), IndexPath(0, 7)),
                       ShowCell(3), RemovePreview, ReloadData]
  {
    var env := Env(true, true, true);
    var cells := ScenarioCells();
    var p := Point(300.0, 300.0);
    ScenarioCellFrames();
    assert !ContainsPoint(cells[0].frame, p);
    assert !ContainsPoint(cells[1].frame, p);
    assert !ContainsPoint(cells[2].frame, p);
    assert ContainsPoint(cells[3].frame, p);
    assert FirstHit(cells, p) == Some(3);
    var press := Began(p, cells);
    var move := Changed(Point(300.0, 50.0), Some(IndexPath(0, 7)));
    var s1 := Step(env, Idle, press);
    assert s1.state == Dragging(Session(Point(45.0, 45.0), 3, Square(255.0, 255.0, 105.0), IndexPath(0, 3)));
    var s2 := Step(env, s1.state, move);
    assert s2.state.Dragging? && s2.state.session.current == IndexPath(0, 7);
    var s3 := Step(env, s2.state, Ended);
    assert [press, move, Ended][1..] == [move, Ended];
    assert [move, Ended][1..] == [Ended];
    assert Run(env, s2.state, [Ended]) == Transition(Idle, s3.effects);
  }
}
