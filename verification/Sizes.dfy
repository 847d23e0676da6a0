/** Terminal sizes, and the rule that picks a session's screen size from its viewers'. */
module Sizes {
  import opened Prelude

  datatype Size = Size(cols: int, rows: int)

  /** dimensions: what an engine takes for a size it is told. */
  function Dimensions(s: Size): Size { Size(Max(1, Min(1000, s.cols)), Max(1, Min(500, s.rows))) }

  function AllDimensions<V>(sizes: map<V, Size>): (r: map<V, Size>)
    ensures r.Keys == sizes.Keys
  {
    map v | v in sizes :: Dimensions(sizes[v])
  }

  predicate Covers(s: Size, t: Size) { t.cols <= s.cols && t.rows <= s.rows }

  /** screen is the componentwise maximum of sizes. */
  predicate Largest<V>(sizes: map<V, Size>, screen: Size) {
    && (forall v :: v in sizes ==> Covers(screen, sizes[v]))
    && (exists v :: v in sizes && sizes[v].cols == screen.cols)
    && (exists v :: v in sizes && sizes[v].rows == screen.rows)
  }

  /** The screen has the size of the viewer in use, or before anyone used it of the largest viewer. */
  predicate Rule<V>(sizes: map<V, Size>, active: Option<V>, screen: Size) {
    if active.Some? then active.value in sizes && screen == sizes[active.value] else Largest(sizes, screen)
  }

  lemma LargestIsUnique<V>(sizes: map<V, Size>, a: Size, b: Size)
    requires Largest(sizes, a) && Largest(sizes, b)
    ensures a == b
  {
    var ac :| ac in sizes && sizes[ac].cols == a.cols;
    var ar :| ar in sizes && sizes[ar].rows == a.rows;
    var bc :| bc in sizes && sizes[bc].cols == b.cols;
    var br :| br in sizes && sizes[br].rows == b.rows;
    assert Covers(b, sizes[ac]) && Covers(b, sizes[ar]) && Covers(a, sizes[bc]) && Covers(a, sizes[br]);
  }

  /** A size among the viewers' that covers all of them is the largest. */
  lemma CoveringIsLargest<V>(sizes: map<V, Size>, v: V, screen: Size)
    requires v in sizes && forall w :: w in sizes ==> Covers(sizes[v], sizes[w])
    ensures Largest(sizes, screen) <==> screen == sizes[v]
  {
    if Largest(sizes, screen) {
      var c :| c in sizes && sizes[c].cols == screen.cols;
      var r :| r in sizes && sizes[r].rows == screen.rows;
      assert Covers(sizes[v], sizes[c]) && Covers(sizes[v], sizes[r]) && Covers(screen, sizes[v]);
    }
  }

  lemma {:induction false} LargestExists<V>(sizes: map<V, Size>) returns (screen: Size)
    requires sizes.Keys != {}
    ensures Largest(sizes, screen)
    decreases |sizes.Keys|
  {
    var v :| v in sizes;
    var rest := sizes - {v};
    if rest.Keys == {} {
      screen := sizes[v];
      assert forall w :: w in sizes ==> w == v || w in rest.Keys;
    } else {
      assert rest.Keys == sizes.Keys - {v};
      var s := LargestExists(rest);
      screen := Size(Max(s.cols, sizes[v].cols), Max(s.rows, sizes[v].rows));
      forall w | w in sizes ensures Covers(screen, sizes[w]) { if w != v { assert w in rest; } }
      var c :| c in rest && rest[c].cols == s.cols;
      var r :| r in rest && rest[r].rows == s.rows;
      assert sizes[if s.cols >= sizes[v].cols then c else v].cols == screen.cols;
      assert sizes[if s.rows >= sizes[v].rows then r else v].rows == screen.rows;
    }
  }

  predicate Wide<V>(sizes: map<V, Size>, a: V, cols: int) { exists v :: v in sizes && v != a && sizes[v].cols >= cols }
  predicate High<V>(sizes: map<V, Size>, a: V, rows: int) { exists v :: v in sizes && v != a && sizes[v].rows >= rows }

  /** Taking one viewer to be of another size changes the largest size unless others hide it. */
  lemma OneChanged<V>(own: map<V, Size>, a: V, told: Size)
    requires a in own
    ensures (forall screen :: Largest(own[a := told], screen) <==> Largest(own, screen)) <==>
      && (told.cols == own[a].cols || Wide(own, a, Max(told.cols, own[a].cols)))
      && (told.rows == own[a].rows || High(own, a, Max(told.rows, own[a].rows)))
  {
    var x := LargestExists(own);
    var y := LargestExists(own[a := told]);
    LargestComponents(own, a, told, x, y);
    forall screen ensures (Largest(own, screen) ==> screen == x) && (Largest(own[a := told], screen) ==> screen == y) {
      if Largest(own, screen) { LargestIsUnique(own, x, screen); }
      if Largest(own[a := told], screen) { LargestIsUnique(own[a := told], y, screen); }
    }
  }

  lemma LargestComponents<V>(own: map<V, Size>, a: V, told: Size, x: Size, y: Size)
    requires a in own && Largest(own, x) && Largest(own[a := told], y)
    ensures x.cols == y.cols <==> told.cols == own[a].cols || Wide(own, a, Max(told.cols, own[a].cols))
    ensures x.rows == y.rows <==> told.rows == own[a].rows || High(own, a, Max(told.rows, own[a].rows))
  {
    var other := own[a := told];
    assert Covers(x, own[a]) && Covers(y, other[a]);
    assert forall v :: v in own && v != a ==> Covers(x, own[v]) && Covers(y, other[v]) && other[v] == own[v];
    var xc :| xc in own && own[xc].cols == x.cols;
    var xr :| xr in own && own[xr].rows == x.rows;
    var yc :| yc in other && other[yc].cols == y.cols;
    var yr :| yr in other && other[yr].rows == y.rows;
  }
}
