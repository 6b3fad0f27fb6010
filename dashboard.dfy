/**
 * The dashboard's drop-down menu of lesson groups. Expanding a group inserts
 * one row per lesson under its row and pushes the rows below it down;
 * collapsing it erases those rows and pulls the rows below back up. The menu
 * window's children live in an unordered map, so the loops over them visit
 * the keys in an unspecified order: each is modelled as a loop that picks
 * any key it has not visited yet.
 */
module Dashboard {
  import opened Wrappers
  import opened Text
  import Gui

  /*** Keys ***/

  function GroupKey(group: string): string {
    "lessongroup_" + group
  }

  function GroupArrowKey(group: string): string {
    "lessongrouparrow_" + group
  }

  /** What every lesson row of `group` contains; collapsing erases the children whose key contains it. */
  function LessonPattern(group: string): string {
    "lesson_" + group
  }

  /** The key of lesson `id`'s row under `group`. */
  function LessonKey(group: string, id: string): (k: string)
    ensures LessonPattern(group) <= k
  {
    LessonPattern(group) + "_" + id
  }

  lemma {:induction false} LessonKeyInjective(group: string, a: string, b: string)
    ensures LessonKey(group, a) == LessonKey(group, b) ==> a == b
  {
    var p := |LessonPattern(group)| + 1;
    assert LessonKey(group, a)[p..] == a && LessonKey(group, b)[p..] == b;
  }

  lemma {:induction false} LessonKeyMatches(group: string, id: string)
    ensures Contains(LessonKey(group, id), LessonPattern(group))
  {
    var k, p := LessonKey(group, id), LessonPattern(group);
    assert k[0..|p|] == p;
    ContainsAt(k, p, 0);
  }

  /** The group's own row never carries the pattern of its lesson rows, so collapsing keeps it. */
  lemma {:induction false} GroupKeyKept(group: string)
    ensures !Contains(GroupKey(group), LessonPattern(group))
  {
    var s, p := GroupKey(group), LessonPattern(group);
    forall i: nat
      ensures !MatchAt(s, p, i)
    {
      if i + |p| <= |s| {
        var w := s[i..i + |p|];
        if i < 5 {
          assert w[6] == s[i + 6] == "lessongroup_"[i + 6];
          assert w[6] != p[6];
        } else {
          assert w[0] == s[5] == 'n';
          assert w[0] != p[0];
        }
      }
    }
    NotContains(s, p);
  }

  /** A child the scroll range counts: a lesson group row or a lesson row. */
  predicate IsMenuRow(k: string) {
    Contains(k, "lessongroup_") || Contains(k, "lesson_")
  }

  lemma {:induction false} LessonKeyIsMenuRow(group: string, id: string)
    ensures IsMenuRow(LessonKey(group, id))
  {
    var k := LessonKey(group, id);
    assert k[0..7] == "lesson_";
    ContainsAt(k, "lesson_", 0);
  }

  /*** Moving the rows below a point ***/

  /**
   * The menu after bumpBelowMenuItems: every child at or below oldTopY whose
   * MoveWindow succeeds (its key is in `moved`) is shifted by
   * newTopY - oldTopY; every other child stays where it is.
   */
  function Bumped(c: map<string, Gui.Node>, oldTopY: int, newTopY: int, moved: set<string>): (r: map<string, Gui.Node>)
    ensures r.Keys == c.Keys
  {
    map k | k in c :: if c[k].y >= oldTopY && k in moved then c[k].(y := c[k].y + (newTopY - oldTopY)) else c[k]
  }

  /** Moving the rows at or below a down by d and then the rows at or below a + d back up restores the menu. */
  lemma {:induction false} BumpRoundTrip(c: map<string, Gui.Node>, a: int, d: int, moved: set<string>)
    requires d >= 0 && c.Keys <= moved
    ensures Bumped(Bumped(c, a, a + d, moved), a + d, a, moved) == c
  {
    var b := Bumped(c, a, a + d, moved);
    var r := Bumped(b, a + d, a, moved);
    forall k | k in c
      ensures r[k] == c[k]
    {
      if c[k].y >= a {
        assert b[k] == c[k].(y := c[k].y + d);
      } else {
        assert b[k] == c[k];
      }
    }
  }

  method BumpBelowMenuItems(menu: Gui.Window, oldTopY: int, newTopY: int, moved: set<string>)
    modifies menu`children
    ensures menu.children == Bumped(old(menu.children), oldTopY, newTopY, moved)
  {
    ghost var c := menu.children;
    ghost var target := Bumped(c, oldTopY, newTopY, moved);
    var delta := newTopY - oldTopY;
    var rest := menu.children.Keys;
    while rest != {}
      invariant rest <= c.Keys && menu.children.Keys == c.Keys
      invariant forall k :: k in c ==> menu.children[k] == if k in rest then c[k] else target[k]
      decreases |rest|
    {
      var k :| k in rest;
      var item := menu.children[k];
      assert item == c[k];
      if item.y >= oldTopY && k in moved {
        menu.children := menu.children[k := item.(y := item.y + delta)];
      }
      assert menu.children[k] == target[k];
      rest := rest - {k};
    }
  }

  /*** Expanding a group ***/

  /** std::wstring's operator<: lexicographic on the wchar_t code units, one per char. */
  predicate Less(a: string, b: string)
    decreases |a|
  {
    if a == [] then b != []
    else b != [] && (a[0] < b[0] || (a[0] == b[0] && Less(a[1..], b[1..])))
  }

  lemma {:induction false} LessIrreflexive(a: string)
    ensures !Less(a, a)
    decreases |a|
  {
    if a != [] {
      LessIrreflexive(a[1..]);
    }
  }

  /** `ids` lists the lessons' IDs as the std::map holding them is traversed: every one, in ascending order. */
  predicate Listing(ids: seq<string>, lessons: map<string, string>) {
    && |ids| == |lessons|
    && (forall i :: 0 <= i < |ids| ==> ids[i] in lessons)
    && (forall i, j :: 0 <= i < j < |ids| ==> Less(ids[i], ids[j]))
  }

  /** The lesson rows' keys under `group`. */
  function LessonKeys(group: string, ids: seq<string>): set<string>
    decreases |ids|
  {
    if ids == [] then {}
    else LessonKeys(group, ids[..|ids| - 1]) + {LessonKey(group, ids[|ids| - 1])}
  }

  lemma {:induction false} LessonKeysHas(group: string, ids: seq<string>, k: string)
    ensures k in LessonKeys(group, ids) <==> exists j :: 0 <= j < |ids| && k == LessonKey(group, ids[j])
    decreases |ids|
  {
    if ids != [] {
      var n := |ids| - 1;
      LessonKeysHas(group, ids[..n], k);
      if k in LessonKeys(group, ids[..n]) {
        var j :| 0 <= j < n && k == LessonKey(group, ids[..n][j]);
        assert ids[..n][j] == ids[j];
      }
      if exists j :: 0 <= j < |ids| && k == LessonKey(group, ids[j]) {
        var j :| 0 <= j < |ids| && k == LessonKey(group, ids[j]);
        if j < n {
          assert ids[..n][j] == ids[j];
        }
      }
    }
  }

  /** The last ID's key is not among the keys of the IDs before it. */
  lemma {:induction false} LessonKeyFresh(group: string, ids: seq<string>)
    requires |ids| > 0 && forall i, j :: 0 <= i < j < |ids| ==> ids[i] != ids[j]
    ensures LessonKey(group, ids[|ids| - 1]) !in LessonKeys(group, ids[..|ids| - 1])
  {
    var n := |ids| - 1;
    var front := ids[..n];
    forall j | 0 <= j < n
      ensures LessonKey(group, ids[n]) != LessonKey(group, front[j])
    {
      assert front[j] == ids[j];
      LessonKeyInjective(group, ids[n], front[j]);
    }
    LessonKeysHas(group, front, LessonKey(group, ids[n]));
  }

  /** Distinct IDs give as many keys as lessons. */
  lemma {:induction false} LessonKeysSize(group: string, ids: seq<string>)
    requires forall i, j :: 0 <= i < j < |ids| ==> ids[i] != ids[j]
    ensures |LessonKeys(group, ids)| == |ids|
    decreases |ids|
  {
    if ids != [] {
      var n := |ids| - 1;
      var front := ids[..n];
      assert forall i :: 0 <= i < n ==> front[i] == ids[i];
      LessonKeysSize(group, front);
      LessonKeyFresh(group, ids);
    }
  }

  /** Where a group's lesson rows go: beside its arrow, as tall as the group row, from just under it. */
  datatype RowGeometry = RowGeometry(x: int, width: int, height: int, top: int)

  function Geometry(groupRow: Gui.Node, arrow: Gui.Node): RowGeometry {
    RowGeometry(groupRow.x + arrow.width, groupRow.width - arrow.width, groupRow.height, groupRow.y + groupRow.height)
  }

  /** Lesson row i, showing the lesson's name. */
  function LessonRow(g: RowGeometry, i: nat, name: string): Gui.Node {
    Gui.Node(true, g.x, g.top + i * g.height, g.width, g.height, name, map[])
  }

  /** The lesson rows emplaced in order, row i for ids[i]. */
  function LessonRows(c: map<string, Gui.Node>, group: string, ids: seq<string>, lessons: map<string, string>, g: RowGeometry): (r: map<string, Gui.Node>)
    requires forall i :: 0 <= i < |ids| ==> ids[i] in lessons
    ensures r.Keys == c.Keys + LessonKeys(group, ids)
    decreases |ids|
  {
    if ids == [] then c
    else
      var n := |ids| - 1;
      Gui.Emplace(LessonRows(c, group, ids[..n], lessons, g), LessonKey(group, ids[n]), LessonRow(g, n, lessons[ids[n]]))
  }

  lemma {:induction false} LessonRowsStep(c: map<string, Gui.Node>, group: string, ids: seq<string>, lessons: map<string, string>, g: RowGeometry, i: nat)
    requires i < |ids| && forall j :: 0 <= j < |ids| ==> ids[j] in lessons
    ensures LessonRows(c, group, ids[..i + 1], lessons, g)
         == Gui.Emplace(LessonRows(c, group, ids[..i], lessons, g), LessonKey(group, ids[i]), LessonRow(g, i, lessons[ids[i]]))
  {
    assert ids[..i + 1][..i] == ids[..i];
  }

  /** With distinct IDs whose rows are not there yet, row i is lesson i's and nothing else changes. */
  lemma {:induction false} LessonRowsAt(c: map<string, Gui.Node>, group: string, ids: seq<string>, lessons: map<string, string>, g: RowGeometry)
    requires forall i :: 0 <= i < |ids| ==> ids[i] in lessons && LessonKey(group, ids[i]) !in c
    requires forall i, j :: 0 <= i < j < |ids| ==> ids[i] != ids[j]
    ensures var r := LessonRows(c, group, ids, lessons, g);
      && r.Keys == c.Keys + LessonKeys(group, ids)
      && (forall i :: 0 <= i < |ids| ==> LessonKey(group, ids[i]) in r && r[LessonKey(group, ids[i])] == LessonRow(g, i, lessons[ids[i]]))
      && (forall k :: k in c ==> r[k] == c[k])
    decreases |ids|
  {
    if ids != [] {
      var n := |ids| - 1;
      var front := ids[..n];
      assert forall i :: 0 <= i < n ==> front[i] == ids[i];
      LessonRowsAt(c, group, front, lessons, g);
      LessonKeyFresh(group, ids);
      forall i | 0 <= i < n
        ensures LessonKey(group, front[i]) != LessonKey(group, ids[n])
      {
        LessonKeyInjective(group, front[i], ids[n]);
      }
    }
  }

  /** The menu once insertLessonMenuItems has run: the rows below pushed down by one row per lesson, then the lesson rows. */
  function Inserted(c: map<string, Gui.Node>, group: string, lessons: map<string, string>, ids: seq<string>, moved: set<string>): map<string, Gui.Node>
    requires GroupKey(group) in c && GroupArrowKey(group) in c
    requires forall i :: 0 <= i < |ids| ==> ids[i] in lessons
  {
    var g := Geometry(c[GroupKey(group)], c[GroupArrowKey(group)]);
    LessonRows(Bumped(c, g.top, g.top + |lessons| * g.height, moved), group, ids, lessons, g)
  }

  /** The keys among `ks` the scroll range counts. */
  function RowsOf(ks: set<string>): set<string> {
    set k | k in ks && IsMenuRow(k)
  }

  /** The children the scroll range counts. */
  function MenuRows(c: map<string, Gui.Node>): set<string> {
    RowsOf(c.Keys)
  }

  /** Visiting one more key of a loop over `keys`. */
  lemma {:induction false} RowsOfStep(keys: set<string>, rest: set<string>, k: string)
    requires rest <= keys && k in rest
    ensures keys - (rest - {k}) == (keys - rest) + {k} && k !in keys - rest
    ensures RowsOf(keys - (rest - {k})) == if IsMenuRow(k) then RowsOf(keys - rest) + {k} else RowsOf(keys - rest)
    ensures |RowsOf(keys - (rest - {k}))| == |RowsOf(keys - rest)| + if IsMenuRow(k) then 1 else 0
  {
    assert keys - (rest - {k}) == (keys - rest) + {k};
  }

  /** insertLessonMenuItems. nMax is the scroll range it sets: how many lesson group and lesson rows the menu holds. */
  method InsertLessonMenuItems(menu: Gui.Window, group: string, lessons: map<string, string>, ids: seq<string>, moved: set<string>)
    returns (nMax: int)
    requires GroupKey(group) in menu.children && GroupArrowKey(group) in menu.children
    requires Listing(ids, lessons)
    modifies menu`children
    ensures menu.children == Inserted(old(menu.children), group, lessons, ids, moved)
    ensures nMax == |MenuRows(menu.children)|
  {
    var numLessons := |lessons|;
    var xDiff := menu.children[GroupArrowKey(group)].width;
    var groupRow := menu.children[GroupKey(group)];
    var x := groupRow.x + xDiff;
    var height := groupRow.height;
    var width := groupRow.width - xDiff;
    var y := groupRow.y + height;
    var maxY := y + numLessons * height;
    InsertedVia(menu.children, group, lessons, ids, moved, RowGeometry(x, width, height, y), maxY);
    BumpBelowMenuItems(menu, y, maxY, moved);
    EmplaceLessonRows(menu, group, lessons, ids, RowGeometry(x, width, height, y));
    nMax := CountMenuRows(menu);
  }

  /** insertLessonMenuItems' loop over the lessons: one row per lesson, each a row height below the last. */
  method EmplaceLessonRows(menu: Gui.Window, group: string, lessons: map<string, string>, ids: seq<string>, g: RowGeometry)
    requires forall i :: 0 <= i < |ids| ==> ids[i] in lessons
    modifies menu`children
    ensures menu.children == LessonRows(old(menu.children), group, ids, lessons, g)
  {
    ghost var bumped := menu.children;
    var y := g.top;
    for i := 0 to |ids|
      invariant menu.children == LessonRows(bumped, group, ids[..i], lessons, g)
      invariant y == g.top + i * g.height
    {
      var id := ids[i];
      LessonRowsStep(bumped, group, ids, lessons, g, i);
      var row := Gui.Node(true, g.x, y, g.width, g.height, lessons[id], map[]);
      assert row == LessonRow(g, i, lessons[id]);
      menu.children := Gui.Emplace(menu.children, LessonKey(group, id), row);
      NextRowY(g.top, i, g.height);
      y := y + g.height;
    }
    assert ids[..|ids|] == ids;
  }

  /** The first loop after the insertion: counts the lesson group and lesson rows. */
  method CountMenuRows(menu: Gui.Window) returns (n: int)
    ensures n == |MenuRows(menu.children)|
  {
    n := 0;
    ghost var keys := menu.children.Keys;
    var rest := menu.children.Keys;
    while rest != {}
      invariant rest <= keys
      invariant n == |RowsOf(keys - rest)|
      decreases |rest|
    {
      var k :| k in rest;
      RowsOfStep(keys, rest, k);
      if IsMenuRow(k) {
        n := n + 1;
      }
      rest := rest - {k};
    }
    assert keys - rest == keys;
  }

  /** Expanding a group: the lesson rows sit under the group row, side by side with its arrow, one row height apart in ID order. */
  lemma {:induction false} InsertedLayout(c: map<string, Gui.Node>, group: string, lessons: map<string, string>, ids: seq<string>, moved: set<string>)
    requires GroupKey(group) in c && GroupArrowKey(group) in c && Listing(ids, lessons)
    requires forall i :: 0 <= i < |ids| ==> LessonKey(group, ids[i]) !in c
    ensures Inserted(c, group, lessons, ids, moved).Keys == c.Keys + LessonKeys(group, ids)
    ensures var r, groupRow, arrow := Inserted(c, group, lessons, ids, moved), c[GroupKey(group)], c[GroupArrowKey(group)];
      forall i :: 0 <= i < |ids| ==>
        LessonKey(group, ids[i]) in r &&
        var row := r[LessonKey(group, ids[i])];
        && row.x == groupRow.x + arrow.width && row.width == groupRow.width - arrow.width
        && row.height == groupRow.height && row.y == groupRow.y + (i + 1) * groupRow.height
        && row.text == lessons[ids[i]]
  {
    var groupRow := c[GroupKey(group)];
    var g := Geometry(groupRow, c[GroupArrowKey(group)]);
    var b := Bumped(c, g.top, g.top + |lessons| * g.height, moved);
    var r := Inserted(c, group, lessons, ids, moved);
    InsertedIs(c, group, lessons, ids, moved, b, g);
    ListingDistinct(ids, lessons);
    LessonRowsAt(b, group, ids, lessons, g);
    forall i | 0 <= i < |ids|
      ensures r[LessonKey(group, ids[i])] == LessonRow(g, i, lessons[ids[i]])
      ensures g.top + i * g.height == groupRow.y + (i + 1) * g.height
    {
      NextRowY(groupRow.y, i, g.height);
    }
  }

  /** Expanding a group: every row already there is where bumping the rows below the group row by one row per lesson put it. */
  lemma {:induction false} InsertedShift(c: map<string, Gui.Node>, group: string, lessons: map<string, string>, ids: seq<string>, moved: set<string>)
    requires GroupKey(group) in c && GroupArrowKey(group) in c && Listing(ids, lessons)
    requires forall i :: 0 <= i < |ids| ==> LessonKey(group, ids[i]) !in c
    ensures var r, groupRow := Inserted(c, group, lessons, ids, moved), c[GroupKey(group)];
      forall k :: k in c ==> k in r && r[k] == Bumped(c, groupRow.y + groupRow.height, groupRow.y + groupRow.height + |lessons| * groupRow.height, moved)[k]
  {
    var g := Geometry(c[GroupKey(group)], c[GroupArrowKey(group)]);
    var b := Bumped(c, g.top, g.top + |lessons| * g.height, moved);
    InsertedIs(c, group, lessons, ids, moved, b, g);
    ListingDistinct(ids, lessons);
    LessonRowsAt(b, group, ids, lessons, g);
  }

  /** insertLessonMenuItems' metrics are the row geometry under the group row, and its bump reaches one row per lesson down. */
  lemma {:induction false} InsertedVia(c: map<string, Gui.Node>, group: string, lessons: map<string, string>, ids: seq<string>, moved: set<string>, rows: RowGeometry, maxY: int)
    requires GroupKey(group) in c && GroupArrowKey(group) in c
    requires forall i :: 0 <= i < |ids| ==> ids[i] in lessons
    requires rows.x == c[GroupKey(group)].x + c[GroupArrowKey(group)].width
    requires rows.width == c[GroupKey(group)].width - c[GroupArrowKey(group)].width
    requires rows.height == c[GroupKey(group)].height
    requires rows.top == c[GroupKey(group)].y + rows.height
    requires maxY == rows.top + |lessons| * rows.height
    ensures Inserted(c, group, lessons, ids, moved) == LessonRows(Bumped(c, rows.top, maxY, moved), group, ids, lessons, rows)
  {
    var g := Geometry(c[GroupKey(group)], c[GroupArrowKey(group)]);
    assert rows == g;
    InsertedIs(c, group, lessons, ids, moved, Bumped(c, rows.top, maxY, moved), g);
  }

  lemma {:induction false} InsertedIs(c: map<string, Gui.Node>, group: string, lessons: map<string, string>, ids: seq<string>, moved: set<string>, b: map<string, Gui.Node>, g: RowGeometry)
    requires GroupKey(group) in c && GroupArrowKey(group) in c
    requires forall i :: 0 <= i < |ids| ==> ids[i] in lessons
    requires g == Geometry(c[GroupKey(group)], c[GroupArrowKey(group)])
    requires b == Bumped(c, g.top, g.top + |lessons| * g.height, moved)
    ensures Inserted(c, group, lessons, ids, moved) == LessonRows(b, group, ids, lessons, g)
  {
  }

  lemma {:induction false} NextRowY(y: int, i: int, h: int)
    ensures y + h + i * h == y + (i + 1) * h
  {
  }

  lemma {:induction false} ListingDistinct(ids: seq<string>, lessons: map<string, string>)
    requires Listing(ids, lessons)
    ensures forall i, j :: 0 <= i < j < |ids| ==> ids[i] != ids[j]
  {
    forall i, j | 0 <= i < j < |ids|
      ensures ids[i] != ids[j]
    {
      LessIrreflexive(ids[i]);
    }
  }

  /** Expanding a collapsed group raises the scroll range by the number of its lessons. */
  lemma {:induction false} InsertedCount(c: map<string, Gui.Node>, group: string, lessons: map<string, string>, ids: seq<string>, moved: set<string>)
    requires GroupKey(group) in c && GroupArrowKey(group) in c && Listing(ids, lessons)
    requires forall i :: 0 <= i < |ids| ==> LessonKey(group, ids[i]) !in c
    ensures MenuRows(Inserted(c, group, lessons, ids, moved)) == MenuRows(c) + LessonKeys(group, ids)
    ensures |MenuRows(Inserted(c, group, lessons, ids, moved))| == |MenuRows(c)| + |lessons|
    ensures MenuRows(c) !! LessonKeys(group, ids) && |LessonKeys(group, ids)| == |lessons|
  {
    var g := Geometry(c[GroupKey(group)], c[GroupArrowKey(group)]);
    var b := Bumped(c, g.top, g.top + |lessons| * g.height, moved);
    InsertedIs(c, group, lessons, ids, moved, b, g);
    ListingDistinct(ids, lessons);
    LessonKeysSize(group, ids);
    var keys := LessonKeys(group, ids);
    forall k | k in keys
      ensures k !in c && IsMenuRow(k)
    {
      LessonKeysHas(group, ids, k);
      var j :| 0 <= j < |ids| && k == LessonKey(group, ids[j]);
      LessonKeyIsMenuRow(group, ids[j]);
    }
    RowsOfAdd(c.Keys, keys);
    assert MenuRows(c) !! keys;
  }

  /** Adding keys the scroll range all counts, none of them there before. */
  lemma {:induction false} RowsOfAdd(ks: set<string>, added: set<string>)
    requires ks !! added && forall k :: k in added ==> IsMenuRow(k)
    ensures RowsOf(ks + added) == RowsOf(ks) + added && |RowsOf(ks + added)| == |RowsOf(ks)| + |added|
  {
    assert RowsOf(ks + added) == RowsOf(ks) + added;
    assert RowsOf(ks) !! added;
  }

  /** Expanding keeps every child's height, and each lesson row is as tall as its group row. */
  lemma {:induction false} InsertedHeights(c: map<string, Gui.Node>, group: string, lessons: map<string, string>, ids: seq<string>, moved: set<string>)
    requires GroupKey(group) in c && GroupArrowKey(group) in c && Listing(ids, lessons)
    requires forall i :: 0 <= i < |ids| ==> LessonKey(group, ids[i]) !in c
    ensures var r := Inserted(c, group, lessons, ids, moved);
      forall k :: k in c ==> k in r && r[k].height == c[k].height
    ensures var r := Inserted(c, group, lessons, ids, moved);
      forall k :: k in LessonKeys(group, ids) ==> k in r && r[k].height == c[GroupKey(group)].height
  {
    var g := Geometry(c[GroupKey(group)], c[GroupArrowKey(group)]);
    var b := Bumped(c, g.top, g.top + |lessons| * g.height, moved);
    InsertedIs(c, group, lessons, ids, moved, b, g);
    ListingDistinct(ids, lessons);
    LessonRowsAt(b, group, ids, lessons, g);
    var r := LessonRows(b, group, ids, lessons, g);
    forall k | k in c
      ensures k in r && r[k].height == c[k].height
    {
      assert r[k] == b[k];
    }
    forall k | k in LessonKeys(group, ids)
      ensures k in r && r[k].height == g.height
    {
      LessonKeysHas(group, ids, k);
      var j :| 0 <= j < |ids| && k == LessonKey(group, ids[j]);
      assert r[k] == LessonRow(g, j, lessons[ids[j]]);
    }
  }

  /*** The scroll height ***/

  /** The sum of the heights of the children `ks`, in whatever order they are visited. */
  ghost function HeightSum(c: map<string, Gui.Node>, ks: set<string>): int
    requires ks <= c.Keys
    decreases |ks|
  {
    if ks == {} then 0
    else
      var k :| k in ks;
      c[k].height + HeightSum(c, ks - {k})
  }

  /** The sum does not depend on which child is taken first. */
  lemma {:induction false} HeightSumPick(c: map<string, Gui.Node>, ks: set<string>, k: string)
    requires ks <= c.Keys && k in ks
    ensures HeightSum(c, ks) == c[k].height + HeightSum(c, ks - {k})
    decreases |ks|
  {
    var j :| j in ks && HeightSum(c, ks) == c[j].height + HeightSum(c, ks - {j});
    if j != k {
      HeightSumPick(c, ks - {j}, k);
      HeightSumPick(c, ks - {k}, j);
      assert ks - {j} - {k} == ks - {k} - {j};
    }
  }

  /** Summing two disjoint sets of children. */
  lemma {:induction false} HeightSumUnion(c: map<string, Gui.Node>, a: set<string>, b: set<string>)
    requires a <= c.Keys && b <= c.Keys && a !! b
    ensures HeightSum(c, a + b) == HeightSum(c, a) + HeightSum(c, b)
    decreases |b|
  {
    if b == {} {
      assert a + b == a;
    } else {
      var k :| k in b;
      HeightSumUnion(c, a, b - {k});
      HeightSumPick(c, a + b, k);
      HeightSumPick(c, b, k);
      assert a + b - {k} == a + (b - {k});
    }
  }

  /** Children of the same heights give the same sum. */
  lemma {:induction false} HeightSumAgree(c: map<string, Gui.Node>, d: map<string, Gui.Node>, ks: set<string>)
    requires ks <= c.Keys && ks <= d.Keys && forall k :: k in ks ==> c[k].height == d[k].height
    ensures HeightSum(c, ks) == HeightSum(d, ks)
    decreases |ks|
  {
    if ks != {} {
      var k :| k in ks;
      HeightSumPick(c, ks, k);
      HeightSumPick(d, ks, k);
      HeightSumAgree(c, d, ks - {k});
    }
  }

  /** Children all of height h sum to h per child. */
  lemma {:induction false} HeightSumUniform(c: map<string, Gui.Node>, ks: set<string>, h: int)
    requires ks <= c.Keys && forall k :: k in ks ==> c[k].height == h
    ensures HeightSum(c, ks) == |ks| * h
    decreases |ks|
  {
    if ks != {} {
      var k :| k in ks;
      HeightSumPick(c, ks, k);
      HeightSumUniform(c, ks - {k}, h);
    }
  }

  /**
   * MenuWM_VScroll's total height: the unsigned 32-bit sum of the heights of
   * the lesson group and lesson rows of the menu that was scrolled, or 0 when
   * no drop-down menu has the scrolled window's handle (null).
   */
  method MenuScrollHeight(menu: Gui.Window?) returns (totalHeight: int)
    ensures menu == null ==> totalHeight == 0
    ensures menu != null ==> totalHeight == HeightSum(menu.children, MenuRows(menu.children)) % 0x1_0000_0000
  {
    totalHeight := 0;
    if menu != null {
      ghost var c := menu.children;
      ghost var keys := c.Keys;
      ghost var sum := 0;
      var rest := menu.children.Keys;
      while rest != {}
        invariant rest <= keys && menu.children == c
        invariant sum == HeightSum(c, RowsOf(keys - rest)) && totalHeight == U32(sum)
        decreases |rest|
      {
        var k :| k in rest;
        ScrollStep(c, rest, k, sum);
        if IsMenuRow(k) {
          var h := menu.children[k].height;
          totalHeight := AddUnsigned(totalHeight, h, sum);
          sum := sum + h;
        }
        rest := rest - {k};
      }
      assert keys - rest == keys;
    }
  }

  /** An int converted to a 32-bit unsigned int. */
  function U32(x: int): int {
    x % 0x1_0000_0000
  }

  /** Adding to an unsigned 32-bit total wraps like adding to the untruncated sum. */
  lemma {:induction false} AddU32(s: int, h: int)
    ensures U32(U32(s) + h) == U32(s + h)
  {
  }

  /** `total += h` on an unsigned 32-bit total that wraps the untruncated sum `s`. */
  method AddUnsigned(total: int, h: int, ghost s: int) returns (r: int)
    requires total == U32(s)
    ensures r == U32(s + h)
  {
    r := U32(total + h);
    AddU32(s, h);
  }

  /** One more key of MenuScrollHeight's loop. */
  lemma {:induction false} ScrollStep(c: map<string, Gui.Node>, rest: set<string>, k: string, sum: int)
    requires rest <= c.Keys && k in rest && sum == HeightSum(c, RowsOf(c.Keys - rest))
    ensures IsMenuRow(k) ==> sum + c[k].height == HeightSum(c, RowsOf(c.Keys - (rest - {k})))
    ensures !IsMenuRow(k) ==> sum == HeightSum(c, RowsOf(c.Keys - (rest - {k})))
  {
    RowsOfStep(c.Keys, rest, k);
    if IsMenuRow(k) {
      HeightSumAdd(c, RowsOf(c.Keys - rest), k);
    }
  }

  /** One more row of the sum. */
  lemma {:induction false} HeightSumAdd(c: map<string, Gui.Node>, rows: set<string>, k: string)
    requires rows <= c.Keys && k in c && k !in rows
    ensures HeightSum(c, rows + {k}) == HeightSum(c, rows) + c[k].height
  {
    assert rows + {k} - {k} == rows;
    HeightSumPick(c, rows + {k}, k);
  }

  /** Expanding a collapsed group adds one group-row height per lesson to the scroll height. */
  lemma {:induction false} InsertedHeight(c: map<string, Gui.Node>, group: string, lessons: map<string, string>, ids: seq<string>, moved: set<string>)
    requires GroupKey(group) in c && GroupArrowKey(group) in c && Listing(ids, lessons)
    requires forall i :: 0 <= i < |ids| ==> LessonKey(group, ids[i]) !in c
    ensures var r := Inserted(c, group, lessons, ids, moved);
      HeightSum(r, MenuRows(r)) == HeightSum(c, MenuRows(c)) + |lessons| * c[GroupKey(group)].height
  {
    var r := Inserted(c, group, lessons, ids, moved);
    var keys := LessonKeys(group, ids);
    InsertedCount(c, group, lessons, ids, moved);
    InsertedHeights(c, group, lessons, ids, moved);
    HeightSumUnion(r, MenuRows(c), keys);
    HeightSumAgree(r, c, MenuRows(c));
    HeightSumUniform(r, keys, c[GroupKey(group)].height);
  }

  /*** Collapsing a group ***/

  /** The children whose key contains the group's lesson pattern. */
  function Matching(c: map<string, Gui.Node>, group: string): set<string> {
    set k | k in c && Contains(k, LessonPattern(group))
  }

  /** The children left once the matching ones are erased. */
  function Erased(c: map<string, Gui.Node>, group: string): (r: map<string, Gui.Node>)
    ensures r.Keys == c.Keys - Matching(c, group)
  {
    map k | k in c && !Contains(k, LessonPattern(group)) :: c[k]
  }

  /** The largest y among the children `ks` (the row lowest on screen), or 0 when every y is smaller (bottomY starts at 0). */
  ghost function MaxY(c: map<string, Gui.Node>, ks: set<string>): int
    requires ks <= c.Keys
    decreases |ks|
  {
    if ks == {} then 0
    else
      var k :| k in ks;
      var rest := MaxY(c, ks - {k});
      if c[k].y > rest then c[k].y else rest
  }

  /** The bound bottomY keeps: not negative, at least every y, and 0 or one of them. */
  predicate IsBottom(c: map<string, Gui.Node>, ks: set<string>, b: int)
    requires ks <= c.Keys
  {
    && b >= 0
    && (forall k :: k in ks ==> c[k].y <= b)
    && (b == 0 || exists k :: k in ks && c[k].y == b)
  }

  lemma {:induction false} MaxYIsBottom(c: map<string, Gui.Node>, ks: set<string>)
    requires ks <= c.Keys
    ensures IsBottom(c, ks, MaxY(c, ks))
    decreases |ks|
  {
    if ks != {} {
      var k :| k in ks && MaxY(c, ks) == (if c[k].y > MaxY(c, ks - {k}) then c[k].y else MaxY(c, ks - {k}));
      MaxYIsBottom(c, ks - {k});
    }
  }

  /** Only one value is a bottom: the loop's bottomY is MaxY. */
  lemma {:induction false} BottomIsMaxY(c: map<string, Gui.Node>, ks: set<string>, b: int)
    requires ks <= c.Keys && IsBottom(c, ks, b)
    ensures b == MaxY(c, ks)
  {
    MaxYIsBottom(c, ks);
  }

  /**
   * The menu once removeLessonMenuItems has run: the matching children erased,
   * then the children at or below the lowest erased one's bottom edge moved
   * up so that it meets the group row's bottom edge.
   */
  ghost function Removed(c: map<string, Gui.Node>, group: string, moved: set<string>): map<string, Gui.Node>
    requires GroupKey(group) in c
  {
    GroupKeyKept(group);
    var e := Erased(c, group);
    var h := e[GroupKey(group)].height;
    Bumped(e, MaxY(c, Matching(c, group)) + h, e[GroupKey(group)].y + h, moved)
  }

  /** removeLessonMenuItems. thrown: the group row is missing, and std::unordered_map::at throws after the rows are erased. */
  method RemoveLessonMenuItems(menu: Gui.Window, group: string, moved: set<string>) returns (thrown: bool)
    modifies menu`children
    ensures thrown <==> GroupKey(group) !in old(menu.children)
    ensures thrown ==> menu.children == Erased(old(menu.children), group)
    ensures !thrown ==> menu.children == Removed(old(menu.children), group, moved)
  {
    ghost var c := menu.children;
    var items, bottomY := CollectMatching(menu, group);
    EraseAll(menu, items);
    assert menu.children == Erased(c, group);
    GroupKeyKept(group);
    if GroupKey(group) !in menu.children {
      return true;
    }
    var itemHeight := menu.children[GroupKey(group)].height;
    bottomY := bottomY + itemHeight;
    var newTopY := menu.children[GroupKey(group)].y + itemHeight;
    RemovedIs(c, group, moved, bottomY, newTopY);
    BumpBelowMenuItems(menu, bottomY, newTopY, moved);
    thrown := false;
  }

  /** The first loop of removeLessonMenuItems: collects the matching keys and the largest y among them. */
  method CollectMatching(menu: Gui.Window, group: string) returns (items: seq<string>, bottomY: int)
    ensures forall k :: k in items <==> k in Matching(menu.children, group)
    ensures bottomY == MaxY(menu.children, Matching(menu.children, group))
  {
    ghost var c := menu.children;
    ghost var pat := LessonPattern(group);
    items := [];
    bottomY := 0;
    var rest := menu.children.Keys;
    while rest != {}
      invariant rest <= c.Keys
      invariant forall k :: k in items <==> k in c && k !in rest && Contains(k, pat)
      invariant bottomY >= 0 && forall k :: k in items ==> c[k].y <= bottomY
      invariant bottomY == 0 || exists k :: k in items && c[k].y == bottomY
      decreases |rest|
    {
      var k :| k in rest;
      if Contains(k, LessonPattern(group)) {
        if menu.children[k].y > bottomY {
          bottomY := menu.children[k].y;
        }
        items := items + [k];
      }
      rest := rest - {k};
    }
    BottomIsMaxY(c, Matching(c, group), bottomY);
  }

  /** The second loop of removeLessonMenuItems: erases the collected keys. */
  method EraseAll(menu: Gui.Window, items: seq<string>)
    modifies menu`children
    ensures menu.children == map k | k in old(menu.children) && k !in items :: old(menu.children)[k]
  {
    ghost var c := menu.children;
    for i := 0 to |items|
      invariant menu.children == map k | k in c && k !in items[..i] :: c[k]
    {
      assert forall k :: k in items[..i + 1] <==> k in items[..i] || k == items[i];
      menu.children := menu.children - {items[i]};
    }
    assert items[..|items|] == items;
  }

  /** The row that came right after the last erased one ends up right under the group row. */
  lemma {:induction false} RemovedClosesGap(c: map<string, Gui.Node>, group: string, moved: set<string>, k: string)
    requires GroupKey(group) in c && k in c && k in moved && k !in Matching(c, group)
    requires c[k].y == MaxY(c, Matching(c, group)) + c[GroupKey(group)].height
    ensures k in Removed(c, group, moved)
    ensures Removed(c, group, moved)[k].y == c[GroupKey(group)].y + c[GroupKey(group)].height
  {
    GroupKeyKept(group);
  }

  /** Collapsing a group just expanded restores the menu exactly, when every window move succeeds. */
  lemma {:induction false} InsertThenRemove(c: map<string, Gui.Node>, group: string, lessons: map<string, string>, ids: seq<string>, moved: set<string>)
    requires GroupKey(group) in c && GroupArrowKey(group) in c && Listing(ids, lessons)
    requires |lessons| > 0 && c[GroupKey(group)].height > 0 && c[GroupKey(group)].y >= 0
    requires Matching(c, group) == {}
    requires c.Keys <= moved
    ensures Removed(Inserted(c, group, lessons, ids, moved), group, moved) == c
  {
    var groupRow := c[GroupKey(group)];
    var g := Geometry(groupRow, c[GroupArrowKey(group)]);
    var n, h := |lessons|, groupRow.height;
    var b := Bumped(c, g.top, g.top + n * h, moved);
    var r := Inserted(c, group, lessons, ids, moved);
    InsertedErased(c, group, lessons, ids, moved, b, g);
    InsertedBottom(c, group, lessons, ids, moved);
    GroupKeyKept(group);
    assert b[GroupKey(group)] == groupRow;
    NextRowY(g.top - h, n - 1, h);
    RowPositive(0, n, h);
    RemoveAfterBump(r, c, group, moved, g.top, n * h);
  }

  /** Removing from a menu whose erased form is `c` bumped down by d below a, with the bounds of the move at a + d and a, gives `c` back. */
  lemma {:induction false} RemoveAfterBump(r: map<string, Gui.Node>, c: map<string, Gui.Node>, group: string, moved: set<string>, a: int, d: int)
    requires GroupKey(group) in r && GroupKey(group) in Erased(r, group)
    requires Erased(r, group) == Bumped(c, a, a + d, moved)
    requires MaxY(r, Matching(r, group)) + Erased(r, group)[GroupKey(group)].height == a + d
    requires Erased(r, group)[GroupKey(group)].y + Erased(r, group)[GroupKey(group)].height == a
    requires d >= 0 && c.Keys <= moved
    ensures Removed(r, group, moved) == c
  {
    var e := Erased(r, group);
    RemovedIs(r, group, moved, a + d, a);
    var x := Removed(r, group, moved);
    forall k | k in c
      ensures k in x && x[k] == c[k]
    {
      if c[k].y >= a {
        assert e[k] == c[k].(y := c[k].y + d);
      } else {
        assert e[k] == c[k];
      }
    }
  }

  /** Removed, once the erased menu and the bounds of the move are known. */
  lemma {:induction false} RemovedIs(c: map<string, Gui.Node>, group: string, moved: set<string>, oldTopY: int, newTopY: int)
    requires GroupKey(group) in c && GroupKey(group) in Erased(c, group)
    requires oldTopY == MaxY(c, Matching(c, group)) + Erased(c, group)[GroupKey(group)].height
    requires newTopY == Erased(c, group)[GroupKey(group)].y + Erased(c, group)[GroupKey(group)].height
    ensures Removed(c, group, moved) == Bumped(Erased(c, group), oldTopY, newTopY, moved)
  {
  }

  /** With no lesson rows of the group in the menu, none of its new lesson keys is there yet. */
  lemma {:induction false} FreshLessonKeys(c: map<string, Gui.Node>, group: string, ids: seq<string>)
    requires Matching(c, group) == {}
    ensures forall i :: 0 <= i < |ids| ==> LessonKey(group, ids[i]) !in c
  {
    forall i | 0 <= i < |ids|
      ensures LessonKey(group, ids[i]) !in c
    {
      LessonKeyMatches(group, ids[i]);
      assert LessonKey(group, ids[i]) !in Matching(c, group);
    }
  }

  /** On a menu without the group's lesson rows, collapsing after expanding erases exactly the rows expanding added. */
  lemma {:induction false} InsertedErased(c: map<string, Gui.Node>, group: string, lessons: map<string, string>, ids: seq<string>, moved: set<string>, b: map<string, Gui.Node>, g: RowGeometry)
    requires GroupKey(group) in c && GroupArrowKey(group) in c && Listing(ids, lessons)
    requires Matching(c, group) == {}
    requires g == Geometry(c[GroupKey(group)], c[GroupArrowKey(group)])
    requires b == Bumped(c, g.top, g.top + |lessons| * g.height, moved)
    ensures Matching(Inserted(c, group, lessons, ids, moved), group) == LessonKeys(group, ids)
    ensures Erased(Inserted(c, group, lessons, ids, moved), group) == b
  {
    InsertedIs(c, group, lessons, ids, moved, b, g);
    FreshLessonKeys(c, group, ids);
    ListingDistinct(ids, lessons);
    LessonRowsAt(b, group, ids, lessons, g);
    var r := LessonRows(b, group, ids, lessons, g);
    var keys := LessonKeys(group, ids);
    forall k | k in keys
      ensures Contains(k, LessonPattern(group))
    {
      LessonKeysHas(group, ids, k);
      var j :| 0 <= j < |ids| && k == LessonKey(group, ids[j]);
      LessonKeyMatches(group, ids[j]);
    }
    forall k | k in c
      ensures k !in keys && !Contains(k, LessonPattern(group))
    {
      assert k !in Matching(c, group);
    }
    ErasedAdded(r, b, keys, group);
  }

  /** Erasing what matches from rows `added` to `b` gives back `b`, when exactly the added rows match. */
  lemma {:induction false} ErasedAdded(r: map<string, Gui.Node>, b: map<string, Gui.Node>, added: set<string>, group: string)
    requires r.Keys == b.Keys + added && forall k :: k in b ==> r[k] == b[k] && !Contains(k, LessonPattern(group))
    requires forall k :: k in added ==> Contains(k, LessonPattern(group))
    ensures Matching(r, group) == added && Erased(r, group) == b
  {
    assert Matching(r, group) == added;
  }

  /** The row lowest on screen (largest y) among those expanding added is the last. */
  lemma {:induction false} InsertedBottom(c: map<string, Gui.Node>, group: string, lessons: map<string, string>, ids: seq<string>, moved: set<string>)
    requires GroupKey(group) in c && GroupArrowKey(group) in c && Listing(ids, lessons)
    requires |lessons| > 0 && c[GroupKey(group)].height > 0 && c[GroupKey(group)].y >= 0
    requires Matching(c, group) == {}
    ensures var r, g := Inserted(c, group, lessons, ids, moved), Geometry(c[GroupKey(group)], c[GroupArrowKey(group)]);
      LessonKeys(group, ids) <= r.Keys && MaxY(r, LessonKeys(group, ids)) == g.top + (|ids| - 1) * g.height
  {
    var g := Geometry(c[GroupKey(group)], c[GroupArrowKey(group)]);
    var b := Bumped(c, g.top, g.top + |lessons| * g.height, moved);
    var n, h := |ids|, g.height;
    InsertedIs(c, group, lessons, ids, moved, b, g);
    FreshLessonKeys(c, group, ids);
    ListingDistinct(ids, lessons);
    LessonRowsAt(b, group, ids, lessons, g);
    var r := LessonRows(b, group, ids, lessons, g);
    var keys := LessonKeys(group, ids);
    var top := g.top + (n - 1) * h;
    forall k | k in keys
      ensures r[k].y <= top
    {
      LessonKeysHas(group, ids, k);
      var j :| 0 <= j < n && k == LessonKey(group, ids[j]);
      RowBelow(g.top, j, n - 1, h);
    }
    RowPositive(g.top, n - 1, h);
    assert r[LessonKey(group, ids[n - 1])].y == top;
    LessonKeysHas(group, ids, LessonKey(group, ids[n - 1]));
    assert IsBottom(r, keys, top);
    BottomIsMaxY(r, keys, top);
  }

  lemma {:induction false} RowBelow(top: int, i: int, j: int, h: int)
    requires i <= j && h > 0
    ensures top + i * h <= top + j * h
  {
    assert j * h == i * h + (j - i) * h;
  }

  lemma {:induction false} RowPositive(top: int, i: int, h: int)
    requires top >= 0 && i >= 0 && h > 0
    ensures top + i * h >= 0
  {
  }

  /*** Clicking a lesson group ***/

  /**
   * How far the ImageLoader got with the arrow: not loaded, loaded but not
   * rotated, rotated but not rendered, or rendered.
   */
  datatype ArrowImage = NotLoaded | NotRotated | NotRendered | Rendered

  /**
   * LessonGroupWM_LButtonUp on the row of `group`: a group without lessons
   * reports an error and changes nothing. Otherwise, when the arrow is
   * loaded and rotated but not rendered, the bare `throw;` has no exception
   * to rethrow and std::terminate ends the program (`terminated`); when it
   * is rendered, an expanded group is collapsed and a collapsed one
   * expanded; `expanded` is the pixel test on the arrow. An arrow not loaded
   * or not rotated changes nothing.
   */
  method LessonGroupClick(menu: Gui.Window, group: string, lessons: map<string, string>, ids: seq<string>,
                          expanded: bool, image: ArrowImage, moved: set<string>)
    returns (error: Option<string>, terminated: bool)
    requires GroupKey(group) in menu.children && GroupArrowKey(group) in menu.children && Listing(ids, lessons)
    modifies menu`children
    ensures |lessons| == 0 <==> error.Some?
    ensures error.Some? ==> error.value == "Lesson Group " + group + " has no installed lessons." && menu.children == old(menu.children)
    ensures terminated <==> error.None? && image == NotRendered
    ensures image != Rendered ==> menu.children == old(menu.children)
    ensures error.None? && image == Rendered && expanded ==> menu.children == Removed(old(menu.children), group, moved)
    ensures error.None? && image == Rendered && !expanded ==> menu.children == Inserted(old(menu.children), group, lessons, ids, moved)
  {
    if |lessons| == 0 {
      return Some("Lesson Group " + group + " has no installed lessons."), false;
    }
    error := None;
    terminated := image == NotRendered;
    if image == Rendered {
      if expanded {
        var thrown := RemoveLessonMenuItems(menu, group, moved);
      } else {
        var nMax := InsertLessonMenuItems(menu, group, lessons, ids, moved);
      }
    }
  }

  /*** Opening a lesson from its row ***/

  /** The language, lesson group and lesson a click on a lesson row opens. */
  datatype Target = Target(langID: string, groupID: string, lessonID: string)

  /** The position find returns: an index, or npos. */
  function Pos(r: Option<nat>): nat {
    if r.Some? then r.value else NPOS
  }

  /** p + 1 on size_t: npos + 1 wraps to 0. */
  function Next(p: nat): (q: nat)
    requires p <= NPOS
    ensures p < NPOS ==> q == p + 1
    ensures p == NPOS ==> q == 0
  {
    (p + 1) % (NPOS + 1)
  }

  lemma {:induction false} FoundFits(s: string, from: nat)
    requires |s| < NPOS
    ensures Next(Pos(Find(s, "_", from))) <= |s|
  {
  }

  /**
   * The click handler's split of the drop-down menu's key and the lesson
   * row's key: the language after the first '_' of the menu key; the group
   * between the row key's first and second '_', and the lesson after the
   * second. A missing '_' makes a position npos, and the size_t arithmetic
   * on it wraps.
   */
  function ClickedLesson(menuKey: string, rowKey: string): (r: Target)
    requires |menuKey| < NPOS && |rowKey| < NPOS
    ensures '_' !in menuKey ==> r.langID == menuKey
    ensures '_' !in rowKey ==> r.groupID == rowKey && r.lessonID == rowKey
  {
    FindChar(menuKey, '_', 0);
    FindChar(rowKey, '_', 0);
    FoundFits(menuKey, 0);
    FoundFits(rowKey, 0);
    var delimPosLang := Pos(Find(menuKey, "_", 0));
    var delimPos1 := Pos(Find(rowKey, "_", 0));
    FoundFits(rowKey, Next(delimPos1));
    var delimPos2 := Pos(Find(rowKey, "_", Next(delimPos1)));
    var delimDelta := SizeSub(SizeSub(delimPos2, delimPos1), 1);
    assert '_' !in rowKey ==> Next(delimPos1) == 0 && Find(rowKey, "_", 0).None?;
    Target(Substr(menuKey, Next(delimPosLang), NPOS), Substr(rowKey, Next(delimPos1), delimDelta), Substr(rowKey, Next(delimPos2), NPOS))
  }

  /** The split once the three '_' positions are known. */
  lemma {:induction false} ClickedLessonAt(menuKey: string, rowKey: string, pl: nat, p1: nat, p2: nat)
    requires |menuKey| < NPOS && |rowKey| < NPOS && p1 < p2
    requires Find(menuKey, "_", 0) == Some(pl) && Find(rowKey, "_", 0) == Some(p1) && Find(rowKey, "_", p1 + 1) == Some(p2)
    ensures pl < |menuKey| && p2 < |rowKey|
    ensures ClickedLesson(menuKey, rowKey) == Target(menuKey[pl + 1..], rowKey[p1 + 1..p2], rowKey[p2 + 1..])
  {
    assert MatchAt(menuKey, "_", pl) && MatchAt(rowKey, "_", p2);
    assert Next(Pos(Find(menuKey, "_", 0))) == pl + 1;
    assert Next(Pos(Find(rowKey, "_", 0))) == p1 + 1;
    assert Next(Pos(Find(rowKey, "_", p1 + 1))) == p2 + 1;
    assert SizeSub(SizeSub(p2, p1), 1) == p2 - (p1 + 1);
    assert Substr(menuKey, pl + 1, NPOS) == menuKey[pl + 1..];
    assert Substr(rowKey, p1 + 1, p2 - (p1 + 1)) == rowKey[p1 + 1..p2];
    assert Substr(rowKey, p2 + 1, NPOS) == rowKey[p2 + 1..];
  }

  /** Where the parts of a lesson row's key sit. */
  lemma {:induction false} LessonKeyParts(group: string, id: string)
    ensures var k, p2 := LessonKey(group, id), 7 + |group|;
      && |k| == p2 + 1 + |id| && k[6] == '_' && k[p2] == '_'
      && k[7..p2] == group && k[p2 + 1..] == id
      && (forall j :: 0 <= j < 6 ==> k[j] != '_')
      && ('_' !in group ==> forall j :: 7 <= j < p2 ==> k[j] != '_')
  {
    var k, p2 := LessonKey(group, id), 7 + |group|;
    assert k == "lesson_" + (group + ("_" + id));
    assert forall j :: 0 <= j < 6 ==> k[j] == "lesson"[j];
    assert forall j :: 7 <= j < p2 ==> k[j] == group[j - 7];
  }

  /** A row key built from a group ID without '_', under a menu of a language ID without '_', opens that lesson. */
  lemma {:induction false} ClickedLessonRoundTrip(lang: string, group: string, id: string)
    requires '_' !in lang && '_' !in group
    requires |lang| + 5 < NPOS && |group| + |id| + 8 < NPOS
    ensures ClickedLesson("menu_" + lang, LessonKey(group, id)) == Target(lang, group, id)
  {
    var m, k := "menu_" + lang, LessonKey(group, id);
    assert forall j :: 0 <= j < 4 ==> m[j] == "menu"[j];
    assert m[5..] == lang;
    assert Find(m, "_", 0) == Some(4) by { FindChar(m, '_', 0); }
    var p2 := 7 + |group|;
    LessonKeyParts(group, id);
    assert Find(k, "_", 0) == Some(6) by { FindChar(k, '_', 0); }
    assert Find(k, "_", 7) == Some(p2) by { FindChar(k, '_', 7); }
    ClickedLessonAt(m, k, 4, 6, p2);
  }
}
