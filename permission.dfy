/**
 * The menu permissions of a role (`PermissionDB.get_permission`). Each joined
 * rolepermission/menu row becomes one permission record. Its stored action-id
 * string, such as "1,2,3", becomes a list of integers, and a nullable column
 * becomes the empty string when it is null.
 */
module Permission {
  import opened Common
  import Text

  /** One row of the role's permission query, as the query returns it (already filtered by role and ordered by `seq`). */
  datatype PermissionRow = PermissionRow(
    menuId: string,
    menuName: Option<string>,
    parentId: Option<string>,
    menuSeq: Option<int>,
    path: Option<string>,
    icon: Option<string>,
    actionId: Option<string>)

  /** One entry of the `permissions` list returned to the caller. */
  datatype MenuPermission = MenuPermission(
    menuId: string,
    menuName: Option<string>,
    parentId: string,
    menuSeq: Option<int>,
    path: string,
    icon: string,
    actionId: int,
    actions: seq<int>)

  /** `str(row.actionid)`: a NULL column renders as "None". */
  function ActionText(actionId: Option<string>): (r: string)
    ensures actionId.None? ==> r == "None"
    ensures actionId.Some? ==> r == actionId.value
  {
    match actionId
    case None => "None"
    case Some(s) => s
  }

  /** `x or ""` on a nullable text column: NULL and "" both give "". */
  function OrEmpty(column: Option<string>): (r: string)
    ensures column.None? ==> r == ""
    ensures column.Some? ==> r == column.value
  {
    match column
    case None => ""
    case Some(s) => if s == "" then "" else s
  }

  /** One piece of the comma branch: its value when it is all digits once stripped, otherwise nothing. */
  function PieceAction(piece: string): (r: seq<int>)
    ensures |r| <= 1
    ensures |r| == 1 <==> Text.IsDigits(Text.Strip(piece))
    ensures |r| == 1 ==> r[0] == Text.DigitsValue(Text.Strip(piece)) as int
  {
    var p := Text.Strip(piece);
    if Text.IsDigits(p) then [Text.DigitsValue(p) as int] else []
  }

  /** The values of the pieces that are all digits once stripped, in their order; other pieces are dropped. */
  function DigitPieces(pieces: seq<string>): (r: seq<int>)
    ensures |r| <= |pieces|
    ensures forall k :: 0 <= k < |r| ==> r[k] >= 0
  {
    if |pieces| == 0 then [] else PieceAction(pieces[0]) + DigitPieces(pieces[1..])
  }

  /**
   * The action list parsed from the stored action-id text. With a comma, the
   * digit pieces in order (possibly none); without one, the whole text as a
   * number, or [1] when it is not all digits, so never an empty list.
   */
  function ParseActions(s: string): (r: seq<int>)
    ensures ',' !in s ==> |r| == 1
    ensures ',' !in s && !Text.IsDigits(s) ==> r == [1]
    ensures ',' !in s && Text.IsDigits(s) ==> r == [Text.DigitsValue(s) as int]
    ensures ',' in s ==> r == DigitPieces(Text.Split(s, ','))
    ensures |r| == 0 ==> ',' in s
  {
    if ',' in s then DigitPieces(Text.Split(s, ','))
    else if Text.IsDigits(s) then [Text.DigitsValue(s) as int]
    else [1]
  }

  /** The reported `actionid`: the first parsed action, or 1 when there is none. */
  function FirstAction(actions: seq<int>): (a: int)
    ensures |actions| > 0 ==> a == actions[0]
    ensures |actions| == 0 ==> a == 1
  {
    if |actions| > 0 then actions[0] else 1
  }

  /** The permission record produced for one query row. */
  function ToPermission(row: PermissionRow): (p: MenuPermission)
    ensures p.actions == ParseActions(ActionText(row.actionId))
    ensures |p.actions| > 0 ==> p.actionId == p.actions[0]
    ensures |p.actions| == 0 ==> p.actionId == 1
    ensures p.menuId == row.menuId && p.menuName == row.menuName && p.menuSeq == row.menuSeq
    ensures p.parentId == row.parentId.GetOr("") && p.path == row.path.GetOr("") && p.icon == row.icon.GetOr("")
  {
    var actions := ParseActions(ActionText(row.actionId));
    MenuPermission(
      row.menuId, row.menuName, OrEmpty(row.parentId), row.menuSeq,
      OrEmpty(row.path), OrEmpty(row.icon), FirstAction(actions), actions)
  }

  /** The permission list for a run of query rows: one record per row, in row order. */
  function Permissions(rows: seq<PermissionRow>): (r: seq<MenuPermission>)
    ensures |r| == |rows|
    ensures forall i :: 0 <= i < |rows| ==> r[i] == ToPermission(rows[i])
  {
    if |rows| == 0 then [] else Permissions(rows[..|rows| - 1]) + [ToPermission(rows[|rows| - 1])]
  }

  /** The loop over the query rows, appending one record per row. */
  method GetPermission(rows: seq<PermissionRow>) returns (permissions: seq<MenuPermission>)
    ensures permissions == Permissions(rows)
  {
    permissions := [];
    for i := 0 to |rows|
      invariant permissions == Permissions(rows[..i])
    {
      assert rows[..i + 1][..i] == rows[..i];
      permissions := permissions + [ToPermission(rows[i])];
    }
    assert rows[..|rows|] == rows;
  }

  /** Parsing keeps order: the digit pieces of two runs of pieces are those of each run, concatenated. */
  lemma {:induction false} DigitPiecesAppend(a: seq<string>, b: seq<string>)
    ensures DigitPieces(a + b) == DigitPieces(a) + DigitPieces(b)
    decreases |a|
  {
    if |a| == 0 {
      assert a + b == b;
    } else {
      var ab := a + b;
      assert ab[0] == a[0] && ab[1..] == a[1..] + b;
      DigitPiecesAppend(a[1..], b);
      calc {
        DigitPieces(ab);
        PieceAction(a[0]) + DigitPieces(a[1..] + b);
        PieceAction(a[0]) + (DigitPieces(a[1..]) + DigitPieces(b));
        (PieceAction(a[0]) + DigitPieces(a[1..])) + DigitPieces(b);
      }
    }
  }

  /** A piece that is not a number once stripped contributes nothing. */
  lemma DigitPiecesDropsNonNumber(a: seq<string>, junk: string, b: seq<string>)
    requires !Text.IsDigits(Text.Strip(junk))
    ensures DigitPieces(a + [junk] + b) == DigitPieces(a) + DigitPieces(b)
  {
    var aj := a + [junk];
    DigitPiecesAppend(aj, b);
    DigitPiecesAppend(a, [junk]);
    assert PieceAction(junk) == [];
    assert DigitPieces([junk]) == [] by {
      assert [junk][0] == junk && [junk][1..] == [];
    }
    assert DigitPieces(aj) == DigitPieces(a);
  }

  /** The decimal renderings of a list of action ids. */
  function Renderings(actions: seq<nat>): (r: seq<string>)
    ensures |r| == |actions|
    ensures forall k :: 0 <= k < |r| ==> r[k] == Text.NatToDigits(actions[k])
  {
    if |actions| == 0 then [] else [Text.NatToDigits(actions[0])] + Renderings(actions[1..])
  }

  /** The digit pieces of rendered numbers are the numbers themselves. */
  lemma {:induction false} DigitPiecesOfRenderings(actions: seq<nat>)
    ensures DigitPieces(Renderings(actions)) == actions
    decreases |actions|
  {
    if |actions| > 0 {
      var r := Renderings(actions);
      var d := Text.NatToDigits(actions[0]);
      Text.StripUnpadded(d);
      assert r[1..] == Renderings(actions[1..]);
      DigitPiecesOfRenderings(actions[1..]);
      assert [actions[0]] + actions[1..] == actions;
    }
  }

  /**
   * Round trip: a non-empty list of action ids stored the way the table holds
   * them ("1,2,3") parses back to the same list.
   */
  lemma ParseActionsRoundTrip(actions: seq<nat>)
    requires |actions| > 0
    ensures ParseActions(Text.Join(Renderings(actions), ',')) == actions
  {
    var parts := Renderings(actions);
    var s := Text.Join(parts, ',');
    forall i | 0 <= i < |parts| ensures ',' !in parts[i] {
      assert Text.IsDigits(parts[i]);
    }
    if |actions| == 1 {
      assert s == Text.NatToDigits(actions[0]);
      assert ',' !in s by { assert Text.IsDigits(s); }
    } else {
      Text.JoinHasSep(parts, ',');
      Text.SplitJoin(parts, ',');
      DigitPiecesOfRenderings(actions);
    }
  }
}
