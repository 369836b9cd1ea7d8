/**
 * The aggregation body of `detect` in the object-detection service: the pothole
 * model's boxes, then the manhole model's boxes, one record per box, the
 * `closed_manhole` class dropped, and a "No Detection" sentinel when nothing
 * remains. The two detectors are black boxes: their boxes are the inputs.
 */
module DetectionAggregate {

  /** One box from a detector: its class index and its confidence (a fraction of 1). */
  datatype Box = Box(cls: nat, conf: real)

  /** One output record; `confidence` is in hundredths of a percent, so that
      `round(conf * 100, 2)` is an integer. */
  datatype Detection = Detection(labelName: string, confidence: int)

  const PotholeLabel := "Pothole"
  const ClosedManhole := "closed_manhole"
  const NoDetection := Detection("No Detection", 0)

  /** Rounding to the nearest integer, ties to even, as Python's `round` does. */
  function RoundHalfEven(x: real): (n: int)
    ensures n as real - 0.5 <= x <= n as real + 0.5
    ensures x - x.Floor as real != 0.5 ==> n as real - 0.5 < x < n as real + 0.5
    ensures x - x.Floor as real == 0.5 ==> n % 2 == 0
    ensures 0.0 <= x ==> 0 <= n
  {
    var f := x.Floor;
    var frac := x - f as real;
    if frac < 0.5 then f
    else if frac > 0.5 then f + 1
    else if f % 2 == 0 then f
    else f + 1
  }

  /** `round(float(conf) * 100, 2)`, in hundredths of a percent. */
  function Percent(conf: real): (p: int)
    ensures 0.0 <= conf <= 1.0 ==> 0 <= p <= 10000
    ensures p as real - 0.5 <= conf * 10000.0 <= p as real + 0.5
  {
    RoundHalfEven(conf * 10000.0)
  }

  /** The records the pothole model contributes: one per box, all labelled "Pothole". */
  function PotholeDetections(boxes: seq<Box>): (r: seq<Detection>)
    ensures |r| == |boxes|
    ensures forall k :: 0 <= k < |boxes| ==> r[k] == Detection(PotholeLabel, Percent(boxes[k].conf))
  {
    if boxes == [] then []
    else PotholeDetections(boxes[..|boxes| - 1]) + [Detection(PotholeLabel, Percent(boxes[|boxes| - 1].conf))]
  }

  /** Every class index the detector emits is in its class table. */
  ghost predicate Named(boxes: seq<Box>, names: map<nat, string>) {
    forall b :: b in boxes ==> b.cls in names
  }

  /** The positions of the boxes whose class is `closed_manhole`. */
  ghost function ClosedIndices(boxes: seq<Box>, names: map<nat, string>): set<nat>
    requires Named(boxes, names)
  {
    set k: nat | k < |boxes| && names[boxes[k].cls] == ClosedManhole
  }

  /** The records the manhole model contributes: one per box, named through the
      class table, with the `closed_manhole` boxes dropped. */
  function ManholeDetections(boxes: seq<Box>, names: map<nat, string>): (r: seq<Detection>)
    requires Named(boxes, names)
    ensures |r| + |ClosedIndices(boxes, names)| == |boxes|
    ensures forall d :: d in r ==> d.labelName != ClosedManhole
    ensures forall d :: d in r ==> exists b :: b in boxes && d == Detection(names[b.cls], Percent(b.conf))
  {
    if boxes == [] then []
    else
      var n := |boxes| - 1;
      var init, b := boxes[..n], boxes[n];
      assert forall x :: x in init ==> x in boxes;
      var rest := ManholeDetections(init, names);
      var className := names[b.cls];
      assert ClosedIndices(boxes, names)
          == ClosedIndices(init, names) + (if className == ClosedManhole then {n} else {});
      if className == ClosedManhole then rest else rest + [Detection(className, Percent(b.conf))]
  }

  /** What one box contributes: its record, or nothing for `closed_manhole`. */
  function BoxRecords(b: Box, names: map<nat, string>): seq<Detection>
    requires b.cls in names
  {
    if names[b.cls] == ClosedManhole then [] else [Detection(names[b.cls], Percent(b.conf))]
  }

  /** One unfolding of `ManholeDetections` at the last box. */
  lemma ManholeLast(boxes: seq<Box>, names: map<nat, string>)
    requires boxes != [] && Named(boxes, names)
    ensures Named(boxes[..|boxes| - 1], names) && boxes[|boxes| - 1] in boxes
    ensures ManholeDetections(boxes, names)
         == ManholeDetections(boxes[..|boxes| - 1], names) + BoxRecords(boxes[|boxes| - 1], names)
  {
    assert forall x :: x in boxes[..|boxes| - 1] ==> x in boxes;
  }

  /** The model's box order is kept: the records of a run of boxes followed by
      another run are those of the first run followed by those of the second. */
  lemma {:induction false} ManholeOrderKept(front: seq<Box>, back: seq<Box>, names: map<nat, string>)
    requires Named(front, names) && Named(back, names)
    ensures Named(front + back, names)
    ensures ManholeDetections(front + back, names) == ManholeDetections(front, names) + ManholeDetections(back, names)
    decreases |back|
  {
    assert forall x :: x in front + back ==> x in front || x in back;
    if back == [] {
      assert front + back == front;
    } else {
      var n := |back| - 1;
      var whole := front + back;
      assert whole[..|whole| - 1] == front + back[..n];
      assert whole[|whole| - 1] == back[n];
      ManholeLast(back, names);
      ManholeLast(whole, names);
      ManholeOrderKept(front, back[..n], names);
    }
  }

  /** What `detect` returns: the pothole records, then the manhole records, or the
      sentinel alone when both are empty. */
  function Aggregate(potholeBoxes: seq<Box>, manholeBoxes: seq<Box>, names: map<nat, string>): (r: seq<Detection>)
    requires Named(manholeBoxes, names)
    ensures |r| > 0
  {
    var found := PotholeDetections(potholeBoxes) + ManholeDetections(manholeBoxes, names);
    if found == [] then [NoDetection] else found
  }

  /** The body of `detect`: two loops appending records, then the sentinel if need be. */
  method Detect(potholeBoxes: seq<Box>, manholeBoxes: seq<Box>, names: map<nat, string>)
    returns (detections: seq<Detection>)
    requires Named(manholeBoxes, names)
    ensures detections == Aggregate(potholeBoxes, manholeBoxes, names)
  {
    detections := [];
    for i := 0 to |potholeBoxes|
      invariant detections == PotholeDetections(potholeBoxes[..i])
    {
      assert potholeBoxes[..i + 1][..i] == potholeBoxes[..i];
      detections := detections + [Detection(PotholeLabel, Percent(potholeBoxes[i].conf))];
    }
    assert potholeBoxes[..|potholeBoxes|] == potholeBoxes;
    for i := 0 to |manholeBoxes|
      invariant Named(manholeBoxes[..i], names)
      invariant detections == PotholeDetections(potholeBoxes) + ManholeDetections(manholeBoxes[..i], names)
    {
      assert manholeBoxes[..i + 1][..i] == manholeBoxes[..i];
      assert Named(manholeBoxes[..i + 1], names) by {
        assert forall x :: x in manholeBoxes[..i + 1] ==> x in manholeBoxes;
      }
      var box := manholeBoxes[i];
      assert box in manholeBoxes;
      var className := names[box.cls];
      if className == ClosedManhole {
        continue;
      }
      detections := detections + [Detection(className, Percent(box.conf))];
    }
    assert manholeBoxes[..|manholeBoxes|] == manholeBoxes;
    if detections == [] {
      detections := detections + [NoDetection];
    }
  }

  /** The sentinel appears exactly when neither model kept a box; otherwise the
      result is the pothole records followed by the manhole records, and its length
      is the pothole box count plus the count of boxes not of class `closed_manhole`. */
  lemma AggregateShape(potholeBoxes: seq<Box>, manholeBoxes: seq<Box>, names: map<nat, string>)
    requires Named(manholeBoxes, names)
    ensures var r := Aggregate(potholeBoxes, manholeBoxes, names);
      && (potholeBoxes == [] && |ClosedIndices(manholeBoxes, names)| == |manholeBoxes| ==> r == [NoDetection])
      && (potholeBoxes != [] || |ClosedIndices(manholeBoxes, names)| < |manholeBoxes| ==>
            && r == PotholeDetections(potholeBoxes) + ManholeDetections(manholeBoxes, names)
            && |r| == |potholeBoxes| + |manholeBoxes| - |ClosedIndices(manholeBoxes, names)|)
  {
  }

  /** The first `|potholeBoxes|` records are the pothole ones, all labelled "Pothole";
      every later record comes from a manhole box, named through the class table,
      and none is labelled `closed_manhole`. */
  lemma RecordsByOrigin(potholeBoxes: seq<Box>, manholeBoxes: seq<Box>, names: map<nat, string>)
    requires Named(manholeBoxes, names)
    requires potholeBoxes != [] || |ClosedIndices(manholeBoxes, names)| < |manholeBoxes|
    ensures var r := Aggregate(potholeBoxes, manholeBoxes, names);
      && (forall k :: 0 <= k < |potholeBoxes| ==> r[k].labelName == PotholeLabel)
      && (forall k :: |potholeBoxes| <= k < |r| ==> r[k].labelName != ClosedManhole)
      && (forall k :: |potholeBoxes| <= k < |r| ==>
            exists b :: b in manholeBoxes && r[k] == Detection(names[b.cls], Percent(b.conf)))
  {
    var r := Aggregate(potholeBoxes, manholeBoxes, names);
    var m := ManholeDetections(manholeBoxes, names);
    assert r == PotholeDetections(potholeBoxes) + m;
    forall k | |potholeBoxes| <= k < |r|
      ensures r[k].labelName != ClosedManhole
      ensures exists b :: b in manholeBoxes && r[k] == Detection(names[b.cls], Percent(b.conf))
    {
      assert r[k] == m[k - |potholeBoxes|] && m[k - |potholeBoxes|] in m;
    }
  }

  /** The worked example: boxes "Pothole" at 0.8; then `closed_manhole` at 0.9 and
      `open_manhole` at 0.7. */
  lemma AggregateExample()
    ensures Aggregate([Box(0, 0.8)], [Box(0, 0.9), Box(1, 0.7)], map[0 := ClosedManhole, 1 := "open_manhole"])
         == [Detection(PotholeLabel, 8000), Detection("open_manhole", 7000)]
    ensures Aggregate([], [], map[]) == [NoDetection]
  {
    var names := map[0 := ClosedManhole, 1 := "open_manhole"];
    var boxes := [Box(0, 0.9), Box(1, 0.7)];
    assert boxes[..1] == [Box(0, 0.9)] && [Box(0, 0.9)][..0] == [];
    assert [Box(0, 0.8)][..0] == [];
    assert ManholeDetections(boxes, names) == [Detection("open_manhole", 7000)];
  }
}
