/**
 * The start page: the table of profile rows, its refresh after a profile is
 * created, the New Profile button under the last row, and deleting a profile.
 */
module StartPage {
  import opened Text
  import opened Profiles
  import Gui

  /** GUI::Pages. */
  datatype Page = NoPage | Home | About | Start | NewProfile | Dashboard | Lesson

  /** The NewProfilesAllowed flag, written through a pointer. */
  class Flag {
    var value: bool

    constructor (value: bool)
      ensures this.value == value
    {
      this.value := value;
    }
  }

  /*** Row keys ***/

  /** The window class of row i: odd rows are "Light Groutfit", even rows "Groutfit". */
  function RowClass(i: nat): (c: string)
    ensures c == "Light Groutfit" || c == "Groutfit"
    ensures c[0] == 'L' <==> i % 2 == 1
  {
    if i % 2 == 1 then "Light Groutfit" else "Groutfit"
  }

  /** The key of row i: its window class followed by i. */
  function RowKey(i: nat): string {
    RowClass(i) + Decimal(i)
  }

  /** Distinct rows have distinct keys. */
  lemma {:induction false} RowKeyInjective(i: nat, j: nat)
    requires RowKey(i) == RowKey(j)
    ensures i == j
  {
    assert RowKey(i)[0] == RowClass(i)[0] && RowKey(j)[0] == RowClass(j)[0];
    assert RowClass(i) == RowClass(j);
    var n := |RowClass(i)|;
    assert Decimal(i) == RowKey(i)[n..] == RowKey(j)[n..] == Decimal(j);
    DecimalInjective(i, j);
  }

  /** Every row key contains "Groutfit", which is how UpdateStartBody finds the rows. */
  lemma {:induction false} RowKeyIsRow(i: nat)
    ensures Contains(RowKey(i), "Groutfit")
  {
    var k := RowKey(i);
    if i % 2 == 1 {
      assert k[6..14] == "Groutfit";
      ContainsAt(k, "Groutfit", 6);
    } else {
      assert k[0..8] == "Groutfit";
      ContainsAt(k, "Groutfit", 0);
    }
  }

  /** The keys of rows 0 .. n - 1, in order. */
  function RowKeys(n: nat): (r: seq<string>)
    ensures |r| == n && forall i :: 0 <= i < n ==> r[i] == RowKey(i)
  {
    seq(n, i requires 0 <= i < n => RowKey(i))
  }

  predicate Distinct(keys: seq<string>) {
    forall i, j :: 0 <= i < j < |keys| ==> keys[i] != keys[j]
  }

  lemma {:induction false} RowKeysDistinct(n: nat)
    ensures Distinct(RowKeys(n))
  {
    var r := RowKeys(n);
    forall i, j | 0 <= i < j < n
      ensures r[i] != r[j]
    {
      if r[i] == r[j] {
        RowKeyInjective(i, j);
      }
    }
  }

  /*** Window texts ***/

  /** SetWindowText on the rows `keys`, in order: row keys[i] gets texts[i]. */
  function SetTexts(c: map<string, Gui.Node>, keys: seq<string>, texts: seq<string>): (r: map<string, Gui.Node>)
    requires |keys| == |texts| && forall i :: 0 <= i < |keys| ==> keys[i] in c
    ensures r.Keys == c.Keys
    decreases |keys|
  {
    if keys == [] then c
    else
      var n := |keys| - 1;
      var prev := SetTexts(c, keys[..n], texts[..n]);
      prev[keys[n] := prev[keys[n]].(text := texts[n])]
  }

  /** One more SetWindowText extends SetTexts on the prefixes by one. */
  lemma {:induction false} SetTextsStep(c: map<string, Gui.Node>, keys: seq<string>, texts: seq<string>, i: nat)
    requires |keys| == |texts| && i < |keys| && forall j :: 0 <= j < |keys| ==> keys[j] in c
    ensures var prev := SetTexts(c, keys[..i], texts[..i]);
      && keys[i] in prev
      && SetTexts(c, keys[..i + 1], texts[..i + 1]) == prev[keys[i] := prev[keys[i]].(text := texts[i])]
  {
    assert keys[..i + 1][..i] == keys[..i] && texts[..i + 1][..i] == texts[..i];
  }

  /** Each named row shows its text; every other window is untouched. */
  lemma {:induction false} SetTextsAt(c: map<string, Gui.Node>, keys: seq<string>, texts: seq<string>)
    requires |keys| == |texts| && (forall i :: 0 <= i < |keys| ==> keys[i] in c) && Distinct(keys)
    ensures var r := SetTexts(c, keys, texts);
      && (forall i :: 0 <= i < |keys| ==> r[keys[i]] == c[keys[i]].(text := texts[i]))
      && (forall k :: k in c && k !in keys ==> r[k] == c[k])
    decreases |keys|
  {
    if keys != [] {
      var n := |keys| - 1;
      SetTextsAt(c, keys[..n], texts[..n]);
      var r := SetTexts(c, keys, texts);
      forall i | 0 <= i < n
        ensures r[keys[i]] == c[keys[i]].(text := texts[i])
      {
        assert keys[..n][i] == keys[i] && texts[..n][i] == texts[i];
      }
      forall k | k in c && k !in keys
        ensures r[k] == c[k]
      {
        assert k !in keys[..n];
      }
    }
  }

  /*** CreateStartBody ***/

  /** Where the rows go; the floating-point scaling of the page size is done by the caller. */
  datatype RowGeometry = RowGeometry(x: int, width: int, height: int)

  /** A default WindowData: visible, at the origin, with no size and no children. */
  const Blank := Gui.Node(true, 0, 0, 0, 0, "", map[])

  /** The placeholder buttons each row is created with. */
  const RowButtons := map["DeleteButton" := Blank, "GoButton" := Blank]

  /** Row i as created: visible, one row height below the previous, with placeholder Delete and Go buttons. */
  function BlankRow(i: nat, g: RowGeometry, y0: int): Gui.Node {
    Gui.Node(true, g.x, y0 + i * g.height, g.width, g.height, "", RowButtons)
  }

  /** The rows `keys` emplaced in order into the page's children: row i under keys[i]. */
  function Rows(c: map<string, Gui.Node>, keys: seq<string>, g: RowGeometry, y0: int): map<string, Gui.Node>
    decreases |keys|
  {
    if keys == [] then c
    else
      var n := |keys| - 1;
      Gui.Emplace(Rows(c, keys[..n], g, y0), keys[n], BlankRow(n, g, y0))
  }

  /** Emplacing adds every key. */
  lemma {:induction false} RowsHaveKeys(c: map<string, Gui.Node>, keys: seq<string>, g: RowGeometry, y0: int)
    ensures forall i :: 0 <= i < |keys| ==> keys[i] in Rows(c, keys, g, y0)
    decreases |keys|
  {
    if keys != [] {
      var n := |keys| - 1;
      RowsHaveKeys(c, keys[..n], g, y0);
      assert forall i :: 0 <= i < n ==> keys[..n][i] == keys[i];
    }
  }

  /** One more row: the next prefix of the keys adds row i under keys[i]. */
  lemma {:induction false} RowsStep(c: map<string, Gui.Node>, keys: seq<string>, i: nat, g: RowGeometry, y0: int)
    requires i < |keys|
    ensures Rows(c, keys[..i + 1], g, y0) == Gui.Emplace(Rows(c, keys[..i], g, y0), keys[i], BlankRow(i, g, y0))
  {
    assert keys[..i + 1][..i] == keys[..i];
  }

  /** With distinct keys none of which is present before, row i is the blank row i and nothing else changes. */
  lemma {:induction false} RowsAt(c: map<string, Gui.Node>, keys: seq<string>, g: RowGeometry, y0: int)
    requires Distinct(keys) && forall i :: 0 <= i < |keys| ==> keys[i] !in c
    ensures var r := Rows(c, keys, g, y0);
      && (forall k :: k in r <==> k in c || k in keys)
      && (forall i :: 0 <= i < |keys| ==> keys[i] in r && r[keys[i]] == BlankRow(i, g, y0))
      && (forall k :: k in c ==> r[k] == c[k])
    decreases |keys|
  {
    if keys != [] {
      var n := |keys| - 1;
      var front := keys[..n];
      DistinctFront(keys);
      RowsAt(c, front, g, y0);
      var prev := Rows(c, front, g, y0);
      assert keys[n] !in prev;
      var r := Rows(c, keys, g, y0);
      assert r == prev[keys[n] := BlankRow(n, g, y0)];
      assert keys == front + [keys[n]];
      forall i | 0 <= i < |keys|
        ensures keys[i] in r && r[keys[i]] == BlankRow(i, g, y0)
      {
        if i < n {
          assert keys[i] == front[i];
        }
      }
    }
  }

  /** Dropping the last of distinct keys leaves distinct keys, none equal to the dropped one. */
  lemma {:induction false} DistinctFront(keys: seq<string>)
    requires Distinct(keys) && keys != []
    ensures var front := keys[..|keys| - 1];
      && Distinct(front) && keys[|keys| - 1] !in front
      && forall i :: 0 <= i < |front| ==> front[i] == keys[i]
  {
    var n := |keys| - 1;
    var front := keys[..n];
    forall a, b | 0 <= a < b < n
      ensures front[a] != front[b]
    {
      assert front[a] == keys[a] && front[b] == keys[b];
    }
    forall i | 0 <= i < n
      ensures front[i] != keys[n]
    {
      assert front[i] == keys[i];
    }
  }

  /** Naming the first |texts| of distinct keys: those rows show their text, every other window is untouched. */
  lemma {:induction false} SetTextsPrefixAt(c: map<string, Gui.Node>, keys: seq<string>, texts: seq<string>)
    requires |texts| <= |keys| && (forall i :: 0 <= i < |keys| ==> keys[i] in c) && Distinct(keys)
    ensures var r := SetTexts(c, keys[..|texts|], texts);
      && (forall i :: 0 <= i < |texts| ==> r[keys[i]] == c[keys[i]].(text := texts[i]))
      && (forall k :: k in c && k !in keys[..|texts|] ==> r[k] == c[k])
      && (forall i :: |texts| <= i < |keys| ==> r[keys[i]] == c[keys[i]])
  {
    var named := keys[..|texts|];
    assert forall j :: 0 <= j < |named| ==> named[j] == keys[j];
    assert Distinct(named);
    SetTextsAt(c, named, texts);
    forall i | |texts| <= i < |keys|
      ensures keys[i] !in named
    {
      forall j | 0 <= j < |named|
        ensures named[j] != keys[i]
      {
        assert named[j] == keys[j];
      }
    }
  }

  /** The page's children once CreateStartBody has run: the five rows, the loaded names in the first ones. */
  function StartBody(c: map<string, Gui.Node>, names: seq<string>, g: RowGeometry, y0: int): map<string, Gui.Node>
    requires |names| <= MaxProfiles
  {
    var keys := RowKeys(MaxProfiles);
    RowsHaveKeys(c, keys, g, y0);
    SetTexts(Rows(c, keys, g, y0), keys[..|names|], names)
  }

  /** Row i of the start body: at y0 + i * height, in the row geometry, showing name i or nothing. */
  lemma {:induction false} StartBodyRows(c: map<string, Gui.Node>, names: seq<string>, g: RowGeometry, y0: int)
    requires |names| <= MaxProfiles && forall i :: 0 <= i < MaxProfiles ==> RowKey(i) !in c
    ensures var r := StartBody(c, names, g, y0); forall k :: k in r <==> k in c || k in RowKeys(MaxProfiles)
    ensures var r := StartBody(c, names, g, y0);
      forall i :: 0 <= i < MaxProfiles ==>
        RowKey(i) in r && r[RowKey(i)] == BlankRow(i, g, y0).(text := if i < |names| then names[i] else "")
    ensures var r := StartBody(c, names, g, y0); forall k :: k in c ==> r[k] == c[k]
  {
    var rows := Rows(c, RowKeys(MaxProfiles), g, y0);
    BlankRowsAt(c, g, y0);
    NamedRowsAt(rows, names);
  }

  /** CreateStartBody's first loop: the five blank rows, nothing else changed. */
  lemma {:induction false} BlankRowsAt(c: map<string, Gui.Node>, g: RowGeometry, y0: int)
    requires forall i :: 0 <= i < MaxProfiles ==> RowKey(i) !in c
    ensures var rows := Rows(c, RowKeys(MaxProfiles), g, y0);
      && (forall k :: k in rows <==> k in c || k in RowKeys(MaxProfiles))
      && (forall i :: 0 <= i < MaxProfiles ==> RowKey(i) in rows && rows[RowKey(i)] == BlankRow(i, g, y0))
      && (forall k :: k in c ==> rows[k] == c[k])
  {
    RowKeysDistinct(MaxProfiles);
    RowsAt(c, RowKeys(MaxProfiles), g, y0);
  }

  /** CreateStartBody's naming loop: the first rows show the names, every other window is untouched. */
  lemma {:induction false} NamedRowsAt(rows: map<string, Gui.Node>, names: seq<string>)
    requires |names| <= MaxProfiles && forall i :: 0 <= i < MaxProfiles ==> RowKey(i) in rows
    ensures var keys := RowKeys(MaxProfiles); var r := SetTexts(rows, keys[..|names|], names);
      && (forall i :: 0 <= i < MaxProfiles ==> r[RowKey(i)] == rows[RowKey(i)].(text := if i < |names| then names[i] else rows[RowKey(i)].text))
      && (forall k :: k in rows && k !in keys ==> r[k] == rows[k])
  {
    var keys := RowKeys(MaxProfiles);
    RowKeysDistinct(MaxProfiles);
    SetTextsPrefixAt(rows, keys, names);
    forall k | k in rows && k !in keys
      ensures k !in keys[..|names|]
    {
    }
  }

  /** The first row's y: under the title, by the gap. */
  function FirstRowY(c: map<string, Gui.Node>, gap: int): int
    requires "title" in c
  {
    c["title"].y + c["title"].height + gap
  }

  lemma {:induction false} NextRowY(y0: int, i: int, h: int)
    ensures y0 + i * h + h == y0 + (i + 1) * h
  {
  }

  /** Lower rows are further down. */
  lemma {:induction false} RowYMonotone(y0: int, i: int, j: int, h: int)
    requires i <= j && h > 0
    ensures y0 + i * h <= y0 + j * h
  {
    assert j * h == i * h + (j - i) * h;
  }

  /** The first loop of CreateStartBody: emplaces the rows, one row height apart. */
  method AddRows(data: Gui.Window, g: RowGeometry, y0: int)
    modifies data`children
    ensures data.children == Rows(old(data.children), RowKeys(MaxProfiles), g, y0)
  {
    var y := y0;
    ghost var keys := RowKeys(MaxProfiles);
    ghost var c0 := data.children;
    for i := 0 to MaxProfiles
      invariant data.children == Rows(c0, keys[..i], g, y0)
      invariant y == y0 + i * g.height
    {
      var key := RowKey(i);
      RowsStep(c0, keys, i, g, y0);
      var row := Gui.Node(true, g.x, y, g.width, g.height, "", RowButtons);
      assert key == keys[i] && row == BlankRow(i, g, y0);
      data.children := Gui.Emplace(data.children, key, row);
      NextRowY(y0, i, g.height);
      y := y + g.height;
    }
    assert keys[..MaxProfiles] == keys;
  }

  /** The second loop of CreateStartBody: SetWindowText on each listed row. */
  method LabelRows(data: Gui.Window, keys: seq<string>, texts: seq<string>)
    requires |keys| == |texts| && forall i :: 0 <= i < |keys| ==> keys[i] in data.children
    modifies data`children
    ensures data.children == SetTexts(old(data.children), keys, texts)
  {
    ghost var c0 := data.children;
    for i := 0 to |keys|
      invariant data.children == SetTexts(c0, keys[..i], texts[..i])
    {
      SetTextsStep(c0, keys, texts, i);
      data.children := data.children[keys[i] := data.children[keys[i]].(text := texts[i])];
    }
    assert keys[..|keys|] == keys && texts[..|keys|] == texts;
  }

  /**
   * CreateStartBody: on the start page, loads the profiles (asking for the
   * window to be destroyed when that fails), creates the five rows, shows the
   * loaded names in the first rows, and clears NewProfilesAllowed when
   * exactly MaxProfiles profiles exist. profiles.bin can hold more records
   * than MaxProfiles; then the naming loop reaches handles[MaxProfiles], past
   * the five row handles, which is undefined behaviour: `overrun` reports it,
   * and the model shows the first five names and goes no further.
   */
  method CreateStartBody(data: Gui.Window, page: Page, store: ProfileStore, fault: LoadFault, g: RowGeometry, gap: int,
                         allowed: Flag) returns (destroy: bool, overrun: bool)
    requires page == Start ==> "title" in data.children && forall i :: 0 <= i < MaxProfiles ==> RowKey(i) !in data.children
    modifies data`children, allowed
    ensures page != Start ==> !destroy && !overrun && data.children == old(data.children) && allowed.value == old(allowed.value)
    ensures page == Start ==> var existing := Loaded(store.profiles, fault);
      && destroy == !LoadSucceeds(fault, |store.profiles|)
      && overrun == (|existing| > MaxProfiles)
      && data.children == StartBody(old(data.children), Shown(Names(existing)), g, FirstRowY(old(data.children), gap))
      && (!overrun ==> allowed.value == (old(allowed.value) && |existing| != MaxProfiles))
  {
    if page != Start {
      return false, false;
    }
    var y0 := FirstRowY(data.children, gap);
    var existing := new ProfileList();
    var loaded := store.LoadProfiles(existing, fault);
    destroy := !loaded;
    assert existing.items == Loaded(store.profiles, fault);
    ghost var c0 := data.children;
    AddRows(data, g, y0);
    var keys := RowKeys(MaxProfiles);
    RowsHaveKeys(c0, keys, g, y0);
    var names := Shown(Names(existing.items));
    LabelRows(data, keys[..|names|], names);
    overrun := |existing.items| > MaxProfiles;
    if overrun {
      return;
    }
    if |existing.items| == MaxProfiles {
      allowed.value := false;
    }
  }

  /** The names that have a row to show them: the first MaxProfiles. */
  function Shown(names: seq<string>): (r: seq<string>)
    ensures |r| <= MaxProfiles
    ensures |names| <= MaxProfiles ==> r == names
    ensures |names| > MaxProfiles ==> r == names[..MaxProfiles]
  {
    if |names| <= MaxProfiles then names else names[..MaxProfiles]
  }

  /*** UpdateStartBody ***/

  /**
   * The rows as UpdateStartBody collects them: exactly the children whose
   * key contains "Groutfit", each once, sorted by their window's top.
   */
  predicate RowOrder(c: map<string, Gui.Node>, order: seq<string>) {
    && Distinct(order)
    && (forall i :: 0 <= i < |order| ==> order[i] in c && Contains(order[i], "Groutfit"))
    && (forall k :: k in c && Contains(k, "Groutfit") ==> k in order)
    && (forall i, j :: 0 <= i < j < |order| ==> c[order[i]].y <= c[order[j]].y)
  }

  /** After CreateStartBody, row i sits i row heights below the first, and the rows are the only profile rows. */
  lemma {:induction false} StartBodyRowYs(c: map<string, Gui.Node>, names: seq<string>, g: RowGeometry, y0: int)
    requires |names| <= MaxProfiles
    requires forall k :: k in c ==> !Contains(k, "Groutfit")
    ensures var r := StartBody(c, names, g, y0);
      && (forall i :: 0 <= i < MaxProfiles ==> RowKey(i) in r && r[RowKey(i)].y == y0 + i * g.height)
      && (forall k :: k in r && Contains(k, "Groutfit") ==> k in RowKeys(MaxProfiles))
  {
    forall i | 0 <= i < MaxProfiles
      ensures RowKey(i) !in c
    {
      RowKeyIsRow(i);
    }
    StartBodyRows(c, names, g, y0);
  }

  /** After CreateStartBody with a positive row height, the rows in order are rows 0 .. 4. */
  lemma {:induction false} StartBodyRowOrder(c: map<string, Gui.Node>, names: seq<string>, g: RowGeometry, y0: int)
    requires |names| <= MaxProfiles && g.height > 0
    requires forall k :: k in c ==> !Contains(k, "Groutfit")
    ensures RowOrder(StartBody(c, names, g, y0), RowKeys(MaxProfiles))
  {
    var r := StartBody(c, names, g, y0);
    var order := RowKeys(MaxProfiles);
    StartBodyRowYs(c, names, g, y0);
    RowKeysDistinct(MaxProfiles);
    forall i | 0 <= i < MaxProfiles
      ensures order[i] in r && Contains(order[i], "Groutfit")
    {
      RowKeyIsRow(i);
    }
    forall i, j | 0 <= i < j < MaxProfiles
      ensures r[order[i]].y <= r[order[j]].y
    {
      RowYMonotone(y0, i, j, g.height);
    }
  }

  /** The row indices the second loop of UpdateStartBody blanks, as written: `existing` up to MaxProfiles inclusive. */
  function BlankedAsWritten(existing: nat): (r: seq<nat>)
    requires existing <= MaxProfiles
    ensures |r| == MaxProfiles + 1 - existing && forall i :: 0 <= i < |r| ==> r[i] == existing + i
  {
    seq(MaxProfiles + 1 - existing, i requires 0 <= i < MaxProfiles + 1 - existing => existing + i)
  }

  /** As written the loop always reaches index MaxProfiles: one past the five rows. */
  lemma {:induction false} AsWrittenBlanksPastRows(existing: nat)
    requires existing <= MaxProfiles
    ensures BlankedAsWritten(existing)[|BlankedAsWritten(existing)| - 1] == MaxProfiles
    ensures exists i :: 0 <= i < |BlankedAsWritten(existing)| && BlankedAsWritten(existing)[i] >= |RowKeys(MaxProfiles)|
  {
    var r := BlankedAsWritten(existing);
    assert r[|r| - 1] >= |RowKeys(MaxProfiles)|;
  }

  /** The rows the loop should blank: those from `existing` below MaxProfiles. */
  function Blanked(existing: nat): (r: seq<nat>)
    requires existing <= MaxProfiles
    ensures |r| == MaxProfiles - existing && forall i :: 0 <= i < |r| ==> r[i] == existing + i
  {
    seq(MaxProfiles - existing, i requires 0 <= i < MaxProfiles - existing => existing + i)
  }

  /** With the bound corrected, every row index is in range and each row without a name is blanked exactly once. */
  lemma {:induction false} BlankedCoversRest(existing: nat)
    requires existing <= MaxProfiles
    ensures forall i :: 0 <= i < |Blanked(existing)| ==> Blanked(existing)[i] < MaxProfiles
    ensures forall j :: existing <= j < MaxProfiles ==> j in Blanked(existing)
  {
    var r := Blanked(existing);
    forall j | existing <= j < MaxProfiles
      ensures j in r
    {
      assert r[j - existing] == j;
    }
  }

  /** The texts UpdateStartBody gives the rows in order: the loaded names, then empty texts. */
  function RowTexts(names: seq<string>): (r: seq<string>)
    requires |names| <= MaxProfiles
    ensures |r| == MaxProfiles
    ensures forall i :: 0 <= i < MaxProfiles ==> r[i] == if i < |names| then names[i] else ""
  {
    names + seq(MaxProfiles - |names|, _ => "")
  }

  /** The two SetWindowText loops of UpdateStartBody, the second bounded by MaxProfiles. */
  method ShowRowTexts(data: Gui.Window, order: seq<string>, names: seq<string>)
    requires |order| == MaxProfiles && |names| <= MaxProfiles && forall i :: 0 <= i < |order| ==> order[i] in data.children
    modifies data`children
    ensures data.children == SetTexts(old(data.children), order, RowTexts(names))
  {
    ghost var texts := RowTexts(names);
    ghost var c0 := data.children;
    for i := 0 to |names|
      invariant data.children == SetTexts(c0, order[..i], texts[..i])
    {
      SetTextsStep(c0, order, texts, i);
      data.children := data.children[order[i] := data.children[order[i]].(text := names[i])];
    }
    for i := |names| to MaxProfiles
      invariant data.children == SetTexts(c0, order[..i], texts[..i])
    {
      SetTextsStep(c0, order, texts, i);
      data.children := data.children[order[i] := data.children[order[i]].(text := "")];
    }
    assert order[..MaxProfiles] == order && texts[..MaxProfiles] == texts;
  }

  /**
   * UpdateStartBody, with the blanking loop bounded by MaxProfiles: on the
   * new-profile page, the rows in order show the loaded names and then
   * nothing, and NewProfilesAllowed is set, whichever branch is taken. With
   * more records than MaxProfiles the naming loop reaches
   * RelevantChildren[MaxProfiles], past the five rows, which is undefined
   * behaviour: `overrun` reports it, and the model shows the first five
   * names and goes no further.
   */
  method UpdateStartBody(data: Gui.Window, page: Page, order: seq<string>, store: ProfileStore, fault: LoadFault, allowed: Flag)
    returns (overrun: bool)
    requires page == NewProfile ==> RowOrder(data.children, order) && |order| == MaxProfiles
    modifies data`children, allowed
    ensures page != NewProfile ==> !overrun && data.children == old(data.children) && allowed.value == old(allowed.value)
    ensures page == NewProfile ==> var existing := Loaded(store.profiles, fault);
      && overrun == (|existing| > MaxProfiles)
      && data.children == SetTexts(old(data.children), order, RowTexts(Shown(Names(existing))))
      && (overrun || allowed.value)
  {
    if page != NewProfile {
      return false;
    }
    var existing := new ProfileList();
    var _ := store.LoadProfiles(existing, fault);
    assert existing.items == Loaded(store.profiles, fault);
    ShowRowTexts(data, order, Shown(Names(existing.items)));
    overrun := |existing.items| > MaxProfiles;
    if overrun {
      return;
    }
    if |existing.items| < MaxProfiles {
      allowed.value := true;
    } else {
      allowed.value := true;
    }
  }

  /** Each row in order shows its name or nothing; windows that are not rows keep their text. */
  lemma {:induction false} UpdateStartBodyTexts(c: map<string, Gui.Node>, order: seq<string>, names: seq<string>)
    requires RowOrder(c, order) && |order| == MaxProfiles && |names| <= MaxProfiles
    ensures var r := SetTexts(c, order, RowTexts(names));
      && (forall i :: 0 <= i < MaxProfiles ==> r[order[i]].text == (if i < |names| then names[i] else ""))
      && (forall k :: k in c && !Contains(k, "Groutfit") ==> r[k] == c[k])
  {
    SetTextsAt(c, order, RowTexts(names));
  }

  /*** CreateNewProfileButton ***/

  /** The key CreateNewProfileButton looks up: the class chosen by the parity of MaxProfiles - 1, then MaxProfiles - 1. */
  function LastRowKey(): string {
    var last := MaxProfiles - 1;
    (if last % 2 == 0 then "Groutfit" else if last % 2 == 1 then "Light Groutfit" else "") + Decimal(last)
  }

  /** That key is the last row's: "Groutfit4". */
  lemma {:induction false} LastRowKeyIsLastRow()
    ensures LastRowKey() == RowKey(MaxProfiles - 1) == "Groutfit4"
  {
  }

  /** The New Profile button's y: below the last row, by the gap. */
  function NewProfileButtonY(c: map<string, Gui.Node>, gap: int): int
    requires LastRowKey() in c
  {
    c[LastRowKey()].y + c[LastRowKey()].height + gap
  }

  /** Under the rows of the start body, the button sits five row heights below the first row. */
  lemma {:induction false} NewProfileButtonBelowRows(c: map<string, Gui.Node>, names: seq<string>, g: RowGeometry, y0: int, gap: int)
    requires |names| <= MaxProfiles && forall i :: 0 <= i < MaxProfiles ==> RowKey(i) !in c
    ensures LastRowKey() in StartBody(c, names, g, y0)
    ensures NewProfileButtonY(StartBody(c, names, g, y0), gap) == y0 + MaxProfiles * g.height + gap
  {
    var r := StartBody(c, names, g, y0);
    StartBodyRows(c, names, g, y0);
    LastRowKeyIsLastRow();
    var last := r[RowKey(MaxProfiles - 1)];
    assert last.y == y0 + (MaxProfiles - 1) * g.height && last.height == g.height;
  }

  /*** Deleting a profile ***/

  /** The answer to the confirmation box. */
  datatype Choice = Yes | No | Closed

  /**
   * The records DeleteButtonWM_LButtonUp writes back, in order: those not
   * named `selected` whose write (at their index in the file) succeeds.
   */
  function Rewritten(ps: seq<Profile>, selected: string, failing: set<nat>): (r: seq<Profile>)
    ensures |r| <= |ps|
    decreases |ps|
  {
    if ps == [] then []
    else
      var n := |ps| - 1;
      Rewritten(ps[..n], selected, failing) + if ps[n].name != selected && n !in failing then [ps[n]] else []
  }

  /** The records not named `selected`, in order. */
  function Without(ps: seq<Profile>, selected: string): (r: seq<Profile>)
    ensures |r| <= |ps|
    decreases |ps|
  {
    if ps == [] then []
    else
      var n := |ps| - 1;
      Without(ps[..n], selected) + if ps[n].name != selected then [ps[n]] else []
  }

  /** Without keeps exactly the records of other names. */
  lemma {:induction false} WithoutKeeps(ps: seq<Profile>, selected: string, p: Profile)
    ensures p in Without(ps, selected) <==> p in ps && p.name != selected
    decreases |ps|
  {
    if ps != [] {
      var n := |ps| - 1;
      WithoutKeeps(ps[..n], selected, p);
      assert ps == ps[..n] + [ps[n]];
    }
  }

  /** A name no record holds drops nothing. */
  lemma {:induction false} WithoutAbsent(ps: seq<Profile>, selected: string)
    requires forall j :: 0 <= j < |ps| ==> ps[j].name != selected
    ensures Without(ps, selected) == ps
    decreases |ps|
  {
    if ps != [] {
      var n := |ps| - 1;
      WithoutAbsent(ps[..n], selected);
      assert ps == ps[..n] + [ps[n]];
    }
  }

  /** With every write succeeding, the rewrite drops exactly the records named `selected`. */
  lemma {:induction false} RewrittenWithout(ps: seq<Profile>, selected: string)
    ensures Rewritten(ps, selected, {}) == Without(ps, selected)
    decreases |ps|
  {
    if ps != [] {
      RewrittenWithout(ps[..|ps| - 1], selected);
    }
  }

  /** A name held by one record only: deleting it removes one record. */
  lemma {:induction false} WithoutUnique(ps: seq<Profile>, i: nat)
    requires i < |ps| && forall j :: 0 <= j < |ps| && j != i ==> ps[j].name != ps[i].name
    ensures Without(ps, ps[i].name) == ps[..i] + ps[i + 1..]
    decreases |ps|
  {
    var n := |ps| - 1;
    var sel := ps[i].name;
    if i == n {
      WithoutAbsent(ps[..n], sel);
    } else {
      WithoutUnique(ps[..n], i);
      assert ps[..n][..i] == ps[..i];
      assert ps[..n][i + 1..] + [ps[n]] == ps[i + 1..];
    }
  }

  /**
   * The store after DeleteButtonWM_LButtonUp: nothing happens unless the
   * answer is YES and both loading profiles.bin and truncating it succeed;
   * then profiles.bin is rewritten and NumProfiles, as read into a
   * zero-initialised struct, drops by one however many records were
   * dropped, and is written back. The profile files stay.
   */
  function Delete(s: Store, selected: string, choice: Choice, fault: LoadFault, truncateFails: bool, failing: set<nat>,
                  io: DataAccess): (r: Store)
    ensures r.profileFiles == s.profileFiles
    ensures io.read == ReadOk && io.write != WriteFailsAfterTruncate ==> r.data.profileCounter == s.data.profileCounter
  {
    if choice != Yes || !LoadSucceeds(fault, |s.profiles|) || truncateFails then s
    else
      var data := ReadInto(s.data, io.read, Counters(0, 0));
      Store(Rewritten(s.profiles, selected, failing), WriteData(s.data, data.(numProfiles := Dec8(data.numProfiles)), io.write),
            s.profileFiles)
  }

  /**
   * When ReadData fails after the records are rewritten, the zero-initialised
   * struct is decremented and written back: ProfileCounter becomes 0 and
   * NumProfiles -1, whatever data.bin held.
   */
  lemma {:induction false} DeleteReadFailureResetsCounters(s: Store, selected: string, fault: LoadFault, failing: set<nat>)
    requires LoadSucceeds(fault, |s.profiles|)
    ensures Delete(s, selected, Yes, fault, false, failing, DataAccess(ReadFails, WriteOk)).data == Counters(0, -1)
  {
  }

  /** Only a YES changes anything. */
  lemma {:induction false} DeleteNeedsYes(s: Store, selected: string, choice: Choice, fault: LoadFault, truncateFails: bool,
                                          failing: set<nat>, io: DataAccess)
    requires choice != Yes
    ensures Delete(s, selected, choice, fault, truncateFails, failing, io) == s
  {
  }

  /** Without failures a YES drops exactly the records of that name, in order, and decrements NumProfiles once. */
  lemma {:induction false} DeleteDropsName(s: Store, selected: string)
    ensures var r := Delete(s, selected, Yes, NoLoadFault, false, {}, DataOk);
      && r.profiles == Without(s.profiles, selected)
      && r.data == Counters(s.data.profileCounter, Dec8(s.data.numProfiles))
  {
    RewrittenWithout(s.profiles, selected);
  }

  /** Deleting an existing profile with no failure keeps a consistent store consistent. */
  lemma {:induction false} DeleteKeepsConsistent(s: Store, i: nat)
    requires Consistent(s) && i < |s.profiles|
    ensures Consistent(Delete(s, s.profiles[i].name, Yes, NoLoadFault, false, {}, DataOk))
  {
    var sel := s.profiles[i].name;
    DeleteDropsName(s, sel);
    WithoutUnique(s.profiles, i);
    var r := Delete(s, sel, Yes, NoLoadFault, false, {}, DataOk);
    var ps := s.profiles[..i] + s.profiles[i + 1..];
    assert r.profiles == ps;
    forall a, b | 0 <= a < b < |ps|
      ensures ps[a].name != ps[b].name
    {
      var a' := if a < i then a else a + 1;
      var b' := if b < i then b else b + 1;
      assert ps[a] == s.profiles[a'] && ps[b] == s.profiles[b'];
    }
  }

  /**
   * DeleteButtonWM_LButtonUp's update of the store: after a YES, loads the
   * profiles, truncates profiles.bin, writes back every record not named
   * `selected` (a record whose write fails is lost), then reads data.bin
   * into a zero-initialised struct, decrements NumProfiles and writes it
   * back.
   */
  method DeleteProfile(store: ProfileStore, selected: string, choice: Choice, fault: LoadFault, truncateFails: bool,
                       failing: set<nat>, io: DataAccess)
    modifies store
    ensures store.State() == Delete(old(store.State()), selected, choice, fault, truncateFails, failing, io)
  {
    if choice != Yes {
      return;
    }
    var all := new ProfileList();
    var loaded := store.LoadProfiles(all, fault);
    if !loaded {
      return;
    }
    if truncateFails {
      return;
    }
    var ps := all.items;
    store.profiles := [];
    for i := 0 to |ps|
      invariant store.profiles == Rewritten(ps[..i], selected, failing)
      invariant store.data == old(store.data) && store.profileFiles == old(store.profileFiles)
    {
      assert ps[..i + 1][..i] == ps[..i];
      if ps[i].name == selected {
        continue;
      }
      if i !in failing {
        store.profiles := store.profiles + [ps[i]];
      }
    }
    assert ps[..|ps|] == ps;
    var data := Counters(0, 0);
    if io.read == ReadOk {
      data := store.data;
    }
    data := data.(numProfiles := Dec8(data.numProfiles));
    if io.write == WriteOk {
      store.data := data;
    } else if io.write == WriteFailsAfterTruncate {
      store.data := Counters(0, 0);
    }
  }
}
