/** How the skills keyboard binds physical key codes to the key meshes of its model
    (src/components/Keyboard.jsx, `keys` and `keyMap`): the meshes named `key_…` are
    sorted front to back into four rows of six, each row is sorted left to right, and
    the key in row r, column c answers to the code `colCodes[c][r]`. Positions are
    abstracted to integer coordinates. */
module KeyLayout {

  /** A mesh of the model: its name and the two coordinates the layout uses. */
  datatype Node = Node(name: string, x: int, z: int)

  datatype Axis = X | Z

  function Coord(n: Node, ax: Axis): int {
    match ax
    case X => n.x
    case Z => n.z
  }

  const KeyCount: nat := 24
  const RowCount: nat := 4
  const ColCount: nat := 6

  // ---------------------------------------------------------------------------
  // Which meshes are keys

  predicate IsKey(n: Node) {
    "key_" <= n.name
  }

  /** `Object.values(nodes).filter((node) => node.name.startsWith("key_"))`. */
  function Keys(nodes: seq<Node>): (r: seq<Node>)
    ensures |r| <= |nodes|
    ensures forall n :: n in r <==> n in nodes && IsKey(n)
  {
    if nodes == [] then []
    else (if IsKey(nodes[0]) then [nodes[0]] else []) + Keys(nodes[1..])
  }

  /** The filter keeps the meshes in their order: a model made only of keys is its own
      key list, and the meshes that are not keys contribute nothing. */
  lemma {:induction false} KeysOfKeys(nodes: seq<Node>)
    requires forall i :: 0 <= i < |nodes| ==> IsKey(nodes[i])
    ensures Keys(nodes) == nodes
  {
    if nodes != [] {
      assert IsKey(nodes[0]);
      KeysOfKeys(nodes[1..]);
    }
  }

  lemma {:induction false} KeysAppend(a: seq<Node>, b: seq<Node>)
    ensures Keys(a + b) == Keys(a) + Keys(b)
  {
    if a == [] {
      assert a + b == b;
    } else {
      assert (a + b)[0] == a[0] && (a + b)[1..] == a[1..] + b;
      KeysAppend(a[1..], b);
    }
  }

  // ---------------------------------------------------------------------------
  // The stable sort of `items.sort((a, b) => a.pos.z - b.pos.z)`

  predicate SortedBy(s: seq<Node>, ax: Axis) {
    forall i, j :: 0 <= i < j < |s| ==> Coord(s[i], ax) <= Coord(s[j], ax)
  }

  /** Places n before the first element whose coordinate is not smaller. */
  function Insert(n: Node, s: seq<Node>, ax: Axis): (r: seq<Node>)
    ensures |r| == |s| + 1
    ensures multiset(r) == multiset(s) + multiset{n}
    ensures r[0] == n || (s != [] && r[0] == s[0])
  {
    if s == [] || Coord(n, ax) <= Coord(s[0], ax) then [n] + s
    else
      assert s == [s[0]] + s[1..];
      [s[0]] + Insert(n, s[1..], ax)
  }

  lemma {:induction false} SortedTail(s: seq<Node>, ax: Axis)
    requires SortedBy(s, ax) && s != []
    ensures SortedBy(s[1..], ax)
  {
    forall i, j | 0 <= i < j < |s[1..]| ensures Coord(s[1..][i], ax) <= Coord(s[1..][j], ax) {
      assert s[1..][i] == s[i + 1] && s[1..][j] == s[j + 1];
    }
  }

  lemma {:induction false} SortedCons(x: Node, t: seq<Node>, ax: Axis)
    requires SortedBy(t, ax) && (t == [] || Coord(x, ax) <= Coord(t[0], ax))
    ensures SortedBy([x] + t, ax)
  {
    var s := [x] + t;
    forall i, j | 0 <= i < j < |s| ensures Coord(s[i], ax) <= Coord(s[j], ax) {
      assert s[j] == t[j - 1];
      if i > 0 {
        assert s[i] == t[i - 1];
      } else {
        assert Coord(t[0], ax) <= Coord(t[j - 1], ax) || j == 1;
      }
    }
  }

  lemma {:induction false} InsertSorted(n: Node, s: seq<Node>, ax: Axis)
    requires SortedBy(s, ax)
    ensures SortedBy(Insert(n, s, ax), ax)
  {
    if s == [] || Coord(n, ax) <= Coord(s[0], ax) {
      SortedCons(n, s, ax);
    } else {
      var rest := Insert(n, s[1..], ax);
      SortedTail(s, ax);
      InsertSorted(n, s[1..], ax);
      assert Coord(s[0], ax) <= Coord(rest[0], ax) by {
        if rest[0] != n {
          assert rest[0] == s[1];
        }
      }
      SortedCons(s[0], rest, ax);
    }
  }

  /** A stable sort by one coordinate; Array.prototype.sort is stable. */
  function SortBy(s: seq<Node>, ax: Axis): (r: seq<Node>)
    ensures |r| == |s|
    ensures multiset(r) == multiset(s)
  {
    if s == [] then []
    else
      assert s == [s[0]] + s[1..];
      Insert(s[0], SortBy(s[1..], ax), ax)
  }

  /** The sort puts its input in ascending order of the coordinate. */
  lemma {:induction false} SortBySorted(s: seq<Node>, ax: Axis)
    ensures SortedBy(SortBy(s, ax), ax)
  {
    if s != [] {
      SortBySorted(s[1..], ax);
      InsertSorted(s[0], SortBy(s[1..], ax), ax);
    }
  }

  /** The elements of s whose coordinate is v, in order. */
  function WithCoord(s: seq<Node>, ax: Axis, v: int): seq<Node> {
    if s == [] then []
    else (if Coord(s[0], ax) == v then [s[0]] else []) + WithCoord(s[1..], ax, v)
  }

  lemma {:induction false} WithCoordCons(x: Node, s: seq<Node>, ax: Axis, v: int)
    ensures WithCoord([x] + s, ax, v) == (if Coord(x, ax) == v then [x] else []) + WithCoord(s, ax, v)
  {
    assert ([x] + s)[0] == x && ([x] + s)[1..] == s;
  }

  lemma {:induction false} InsertStable(n: Node, t: seq<Node>, ax: Axis, v: int)
    ensures WithCoord(Insert(n, t, ax), ax, v) ==
      (if Coord(n, ax) == v then [n] else []) + WithCoord(t, ax, v)
  {
    if t == [] || Coord(n, ax) <= Coord(t[0], ax) {
      assert Insert(n, t, ax) == [n] + t;
      WithCoordCons(n, t, ax, v);
    } else {
      InsertStable(n, t[1..], ax, v);
      InsertStablePast(n, t, ax, v);
    }
  }

  /** The step of `InsertStable` where n goes past the first element. */
  lemma {:induction false} InsertStablePast(n: Node, t: seq<Node>, ax: Axis, v: int)
    requires t != [] && Coord(t[0], ax) < Coord(n, ax)
    requires WithCoord(Insert(n, t[1..], ax), ax, v) ==
      (if Coord(n, ax) == v then [n] else []) + WithCoord(t[1..], ax, v)
    ensures WithCoord(Insert(n, t, ax), ax, v) ==
      (if Coord(n, ax) == v then [n] else []) + WithCoord(t, ax, v)
  {
    var self: seq<Node> := if Coord(n, ax) == v then [n] else [];
    var rest := Insert(n, t[1..], ax);
    var head: seq<Node> := if Coord(t[0], ax) == v then [t[0]] else [];
    var w := WithCoord(t[1..], ax, v);
    assert Insert(n, t, ax) == [t[0]] + rest;
    WithCoordCons(t[0], rest, ax, v);
    assert t == [t[0]] + t[1..];
    WithCoordCons(t[0], t[1..], ax, v);
    SwapEmpty(head, self, w);
  }

  lemma {:induction false} SwapEmpty(a: seq<Node>, b: seq<Node>, w: seq<Node>)
    requires a == [] || b == []
    ensures a + (b + w) == b + (a + w)
  {
    if a == [] {
      assert a + (b + w) == b + w;
      assert a + w == w;
    } else {
      assert b + w == w;
      assert b + (a + w) == a + w;
    }
  }

  /** Stability: the meshes that tie on the sort coordinate keep their relative order. */
  lemma {:induction false} SortStable(s: seq<Node>, ax: Axis, v: int)
    ensures WithCoord(SortBy(s, ax), ax, v) == WithCoord(s, ax, v)
  {
    if s != [] {
      SortStable(s[1..], ax, v);
      InsertStable(s[0], SortBy(s[1..], ax), ax, v);
      assert s == [s[0]] + s[1..];
      WithCoordCons(s[0], s[1..], ax, v);
    }
  }

  // ---------------------------------------------------------------------------
  // The grid

  /** Row r: the keys ranked 6r to 6r+5 from the front, sorted left to right. */
  function Row(keys: seq<Node>, r: nat): (row: seq<Node>)
    requires |keys| == KeyCount && r < RowCount
    ensures |row| == ColCount
    ensures multiset(row) == multiset(SortBy(keys, Z)[6 * r..6 * r + 6])
  {
    SortBy(SortBy(keys, Z)[6 * r..6 * r + 6], X)
  }

  function Grid(keys: seq<Node>): (g: seq<seq<Node>>)
    requires |keys| == KeyCount
    ensures IsGrid(g)
    ensures forall r :: 0 <= r < RowCount ==> g[r] == Row(keys, r)
  {
    seq(RowCount, r requires 0 <= r < RowCount => Row(keys, r))
  }

  predicate IsGrid(g: seq<seq<Node>>) {
    |g| == RowCount && forall r :: 0 <= r < RowCount ==> |g[r]| == ColCount
  }

  /** `n` is one of the keys ranked 6r to 6r+5 from the front. */
  predicate InBlock(keys: seq<Node>, r: nat, n: Node)
    requires |keys| == KeyCount && r < RowCount
  {
    n in multiset(SortBy(keys, Z)[6 * r..6 * r + 6])
  }

  /** A key of an earlier block of six is never in front of a key of a later block. */
  lemma {:induction false} BlocksInOrder(keys: seq<Node>, r1: nat, r2: nat, a: Node, b: Node)
    requires |keys| == KeyCount && r1 < r2 < RowCount
    requires InBlock(keys, r1, a) && InBlock(keys, r2, b)
    ensures a.z <= b.z
  {
    SortBySorted(keys, Z);
    SortedBlocks(SortBy(keys, Z), 6 * r1, 6 * r2, a, b);
  }

  /** In a sequence sorted front to back, an element of an earlier block of six is never
      in front of one of a later block. */
  lemma {:induction false} SortedBlocks(sz: seq<Node>, i: nat, j: nat, a: Node, b: Node)
    requires SortedBy(sz, Z) && i + 6 <= j && j + 6 <= |sz|
    requires a in multiset(sz[i..i + 6]) && b in multiset(sz[j..j + 6])
    ensures a.z <= b.z
  {
    var s1, s2 := sz[i..i + 6], sz[j..j + 6];
    assert a in s1 && b in s2;
    var p :| 0 <= p < 6 && s1[p] == a;
    var q :| 0 <= q < 6 && s2[q] == b;
    assert sz[i + p] == a && sz[j + q] == b;
    assert Coord(sz[i + p], Z) <= Coord(sz[j + q], Z);
  }

  /** Every row lies wholly behind the next one: a key of an earlier row is never in
      front of a key of a later row. */
  lemma {:induction false} RowsFrontToBack(keys: seq<Node>, r1: nat, r2: nat, c1: nat, c2: nat)
    requires |keys| == KeyCount && r1 < r2 < RowCount && c1 < ColCount && c2 < ColCount
    ensures Grid(keys)[r1][c1].z <= Grid(keys)[r2][c2].z
  {
    InRowBlock(keys, r1, c1);
    InRowBlock(keys, r2, c2);
    BlocksInOrder(keys, r1, r2, Grid(keys)[r1][c1], Grid(keys)[r2][c2]);
  }

  /** The key at (r, c) is one of the keys ranked 6r to 6r+5 from the front. */
  lemma {:induction false} InRowBlock(keys: seq<Node>, r: nat, c: nat)
    requires |keys| == KeyCount && r < RowCount && c < ColCount
    ensures InBlock(keys, r, Grid(keys)[r][c])
  {
    var row := Grid(keys)[r];
    assert row == Row(keys, r);
    assert row[c] in multiset(row);
  }

  /** Within a row the keys run left to right. */
  lemma {:induction false} RowLeftToRight(keys: seq<Node>, r: nat, c1: nat, c2: nat)
    requires |keys| == KeyCount && r < RowCount && c1 < c2 < ColCount
    ensures Grid(keys)[r][c1].x <= Grid(keys)[r][c2].x
  {
    var block := SortBy(keys, Z)[6 * r..6 * r + 6];
    SortBySorted(block, X);
    assert Grid(keys)[r] == SortBy(block, X);
    assert Coord(SortBy(block, X)[c1], X) <= Coord(SortBy(block, X)[c2], X);
  }

  /** The rows, read one after another. */
  function Flatten(g: seq<seq<Node>>): seq<Node> {
    if g == [] then [] else g[0] + Flatten(g[1..])
  }

  lemma {:induction false} FlattenFour(g: seq<seq<Node>>)
    requires |g| == 4
    ensures Flatten(g) == g[0] + g[1] + g[2] + g[3]
  {
    assert Flatten(g[3..]) == g[3] by {
      assert g[3..][0] == g[3] && g[3..][1..] == [];
    }
    assert Flatten(g[2..]) == g[2] + Flatten(g[3..]) by {
      assert g[2..][0] == g[2] && g[2..][1..] == g[3..];
    }
    assert Flatten(g[1..]) == g[1] + Flatten(g[2..]) by {
      assert g[1..][0] == g[1] && g[1..][1..] == g[2..];
    }
  }

  lemma {:induction false} FlattenIndex(g: seq<seq<Node>>, r: nat, c: nat)
    requires IsGrid(g) && r < RowCount && c < ColCount
    ensures |Flatten(g)| == KeyCount
    ensures Flatten(g)[6 * r + c] == g[r][c]
  {
    FlattenFour(g);
    var f := Flatten(g);
    assert |g[0]| == 6 && |g[1]| == 6 && |g[2]| == 6 && |g[3]| == 6;
    if r == 0 {
      assert f[c] == g[0][c];
    } else if r == 1 {
      assert f[6 + c] == g[1][c];
    } else if r == 2 {
      assert f[12 + c] == g[2][c];
    } else {
      assert f[18 + c] == g[3][c];
    }
  }

  lemma {:induction false} FourBlocks(s: seq<Node>)
    requires |s| == KeyCount
    ensures s == s[0..6] + s[6..12] + s[12..18] + s[18..24]
  {
  }

  /** The grid holds every key exactly once. */
  lemma {:induction false} GridIsPermutation(keys: seq<Node>)
    requires |keys| == KeyCount
    ensures multiset(Flatten(Grid(keys))) == multiset(keys)
  {
    var g := Grid(keys);
    var sz := SortBy(keys, Z);
    FlattenFour(g);
    FourBlocks(sz);
    calc {
      multiset(Flatten(g));
      multiset(g[0]) + multiset(g[1]) + multiset(g[2]) + multiset(g[3]);
      multiset(sz[0..6]) + multiset(sz[6..12]) + multiset(sz[12..18]) + multiset(sz[18..24]);
      multiset(sz);
    }
  }

  // ---------------------------------------------------------------------------
  // The code table

  /** `colCodes`: column c lists, from the top row down, a digit key and the three
      letter keys below it. */
  const ColCodes: seq<seq<string>> := [
    ["Digit1", "KeyQ", "KeyA", "KeyZ"],
    ["Digit2", "KeyW", "KeyS", "KeyX"],
    ["Digit3", "KeyE", "KeyD", "KeyC"],
    ["Digit4", "KeyR", "KeyF", "KeyV"],
    ["Digit5", "KeyT", "KeyG", "KeyB"],
    ["Digit6", "KeyY", "KeyH", "KeyN"]
  ]

  /** A table of 6 columns of 4 codes. */
  predicate IsCodeTable(codes: seq<seq<string>>) {
    |codes| == ColCount && forall c :: 0 <= c < ColCount ==> |codes[c]| == RowCount
  }

  /** No code appears twice in the table. */
  predicate DistinctCodes(codes: seq<seq<string>>)
    requires IsCodeTable(codes)
  {
    forall c1, r1, c2, r2 ::
      (0 <= c1 < ColCount && 0 <= r1 < RowCount && 0 <= c2 < ColCount && 0 <= r2 < RowCount &&
       (c1 != c2 || r1 != r2)) ==> codes[c1][r1] != codes[c2][r2]
  }

  /** The last character of each code, in the layout of `ColCodes`. */
  const LastChars: seq<string> := ["1QAZ", "2WSX", "3EDC", "4RFV", "5TGB", "6YHN"]

  lemma {:induction false} ColCodesLastChars()
    ensures IsCodeTable(ColCodes)
    ensures forall c, r :: 0 <= c < ColCount && 0 <= r < RowCount ==>
      |ColCodes[c][r]| > 0 && ColCodes[c][r][|ColCodes[c][r]| - 1] == LastChars[c][r]
  {
  }

  lemma {:induction false} LastCharsDistinct()
    ensures forall c1, r1, c2, r2 ::
      (0 <= c1 < ColCount && 0 <= r1 < RowCount && 0 <= c2 < ColCount && 0 <= r2 < RowCount &&
       (c1 != c2 || r1 != r2)) ==> LastChars[c1][r1] != LastChars[c2][r2]
  {
  }

  /** The 24 codes of the site's table are different from one another. */
  lemma {:induction false} ColCodesDistinct()
    ensures IsCodeTable(ColCodes) && DistinctCodes(ColCodes)
  {
    ColCodesLastChars();
    LastCharsDistinct();
    forall c1, r1, c2, r2 |
      0 <= c1 < ColCount && 0 <= r1 < RowCount && 0 <= c2 < ColCount && 0 <= r2 < RowCount &&
      (c1 != c2 || r1 != r2)
      ensures ColCodes[c1][r1] != ColCodes[c2][r2]
    {
      var a, b := ColCodes[c1][r1], ColCodes[c2][r2];
      assert a[|a| - 1] != b[|b| - 1];
    }
  }

  /** Whether (c, r) comes before (col, row) in the column-major order of the loop. */
  predicate Before(c: int, r: int, col: int, row: int) {
    c < col || (c == col && r < row)
  }

  /** The codes written once the loop reaches (col, row). */
  function CodesBefore(codes: seq<seq<string>>, col: nat, row: nat): set<string>
    requires IsCodeTable(codes) && col <= ColCount && row <= RowCount && (row > 0 ==> col < ColCount)
    decreases col, row
  {
    if row > 0 then CodesBefore(codes, col, row - 1) + {codes[col][row - 1]}
    else if col > 0 then CodesBefore(codes, col - 1, RowCount)
    else {}
  }

  /** All the codes of a table. */
  function AllCodes(codes: seq<seq<string>>): set<string>
    requires IsCodeTable(codes)
  {
    CodesBefore(codes, ColCount, 0)
  }

  /** `AllCodes` is the set of the table's entries. */
  lemma {:induction false} CodesBeforeMembers(codes: seq<seq<string>>, col: nat, row: nat, k: string)
    requires IsCodeTable(codes) && col <= ColCount && row <= RowCount && (row > 0 ==> col < ColCount)
    ensures k in CodesBefore(codes, col, row) <==>
      exists c, r :: 0 <= c < ColCount && 0 <= r < RowCount && Before(c, r, col, row) && codes[c][r] == k
    decreases col, row
  {
    if row > 0 {
      CodesBeforeMembers(codes, col, row - 1, k);
      if k == codes[col][row - 1] {
        assert Before(col, row - 1, col, row);
      }
    } else if col > 0 {
      CodesBeforeMembers(codes, col - 1, RowCount, k);
    }
  }

  /** What the loop has written on reaching (col, row): every earlier code bound to the
      name of the key at its place. */
  predicate BoundValues(m: map<string, string>, grid: seq<seq<Node>>, codes: seq<seq<string>>, col: int, row: int)
    requires IsGrid(grid) && IsCodeTable(codes)
  {
    forall r, c {:trigger codes[c][r]} :: 0 <= r < RowCount && 0 <= c < ColCount && Before(c, r, col, row) ==>
      codes[c][r] in m && m[codes[c][r]] == grid[r][c].name
  }

  lemma {:induction false} BindStepValues(m: map<string, string>, grid: seq<seq<Node>>, codes: seq<seq<string>>, col: int, row: int)
    requires IsGrid(grid) && IsCodeTable(codes) && DistinctCodes(codes)
    requires 0 <= col < ColCount && 0 <= row < RowCount
    requires BoundValues(m, grid, codes, col, row)
    ensures BoundValues(m[codes[col][row] := grid[row][col].name], grid, codes, col, row + 1)
  {
    var m' := m[codes[col][row] := grid[row][col].name];
    forall r, c {:trigger codes[c][r]} | 0 <= r < RowCount && 0 <= c < ColCount && Before(c, r, col, row + 1)
      ensures codes[c][r] in m' && m'[codes[c][r]] == grid[r][c].name
    {
      if Before(c, r, col, row) {
        assert codes[c][r] != codes[col][row];
      }
    }
  }

  lemma {:induction false} BoundNextColumn(m: map<string, string>, grid: seq<seq<Node>>, codes: seq<seq<string>>, col: int)
    requires IsGrid(grid) && IsCodeTable(codes)
    requires BoundValues(m, grid, codes, col, RowCount)
    ensures BoundValues(m, grid, codes, col + 1, 0)
  {
    forall r, c {:trigger codes[c][r]} | 0 <= r < RowCount && 0 <= c < ColCount && Before(c, r, col + 1, 0)
      ensures codes[c][r] in m && m[codes[c][r]] == grid[r][c].name
    {
      assert Before(c, r, col, RowCount);
    }
  }

  lemma {:induction false} BoundAll(m: map<string, string>, grid: seq<seq<Node>>, codes: seq<seq<string>>)
    requires IsGrid(grid) && IsCodeTable(codes)
    requires BoundValues(m, grid, codes, ColCount, 0)
    ensures forall r, c {:trigger codes[c][r]} :: 0 <= r < RowCount && 0 <= c < ColCount ==>
      codes[c][r] in m && m[codes[c][r]] == grid[r][c].name
  {
    forall r, c {:trigger codes[c][r]} | 0 <= r < RowCount && 0 <= c < ColCount
      ensures codes[c][r] in m && m[codes[c][r]] == grid[r][c].name
    {
      assert Before(c, r, ColCount, 0);
    }
  }

  /** The nested loop over columns and rows: `keyMapByCode[codes[col][row]] =
      grid[row][col].name`. With distinct codes every code ends bound to the key at
      its place. */
  method BindCodes(grid: seq<seq<Node>>, codes: seq<seq<string>>) returns (m: map<string, string>)
    requires IsGrid(grid) && IsCodeTable(codes) && DistinctCodes(codes)
    ensures m.Keys == AllCodes(codes)
    ensures forall r, c {:trigger codes[c][r]} :: 0 <= r < RowCount && 0 <= c < ColCount ==>
      codes[c][r] in m && m[codes[c][r]] == grid[r][c].name
  {
    m := map[];
    var col := 0;
    while col < ColCount
      invariant 0 <= col <= ColCount
      invariant m.Keys == CodesBefore(codes, col, 0)
      invariant BoundValues(m, grid, codes, col, 0)
    {
      var row := 0;
      while row < RowCount
        invariant 0 <= row <= RowCount
        invariant m.Keys == CodesBefore(codes, col, row)
        invariant BoundValues(m, grid, codes, col, row)
      {
        var ctrl: Node := grid[row][col];
        var code := codes[col][row];
        BindStepValues(m, grid, codes, col, row);
        m := m[code := ctrl.name];
        row := row + 1;
      }
      BoundNextColumn(m, grid, codes, col);
      col := col + 1;
    }
    BoundAll(m, grid, codes);
  }

  /** The `keyMap` memo: nothing unless there are exactly 24 keys; otherwise each code
      of `colCodes` is bound to the name of the key at its row and column. */
  method BuildKeyMap(keys: seq<Node>) returns (m: map<string, string>)
    ensures |keys| != KeyCount ==> m == map[]
    ensures |keys| == KeyCount ==>
      && IsCodeTable(ColCodes)
      && m.Keys == AllCodes(ColCodes)
      && forall r, c {:trigger ColCodes[c][r]} :: 0 <= r < RowCount && 0 <= c < ColCount ==>
           ColCodes[c][r] in m && m[ColCodes[c][r]] == Grid(keys)[r][c].name
  {
    if |keys| != KeyCount {
      return map[];
    }
    ColCodesDistinct();
    m := BindCodes(Grid(keys), ColCodes);
  }

  // ---------------------------------------------------------------------------
  // One code per key

  predicate DistinctNames(s: seq<Node>) {
    forall i, j :: 0 <= i < j < |s| ==> s[i].name != s[j].name
  }

  lemma {:induction false} DistinctNamesCount(s: seq<Node>, n: Node)
    requires DistinctNames(s)
    ensures multiset(s)[n] <= 1
  {
    if s != [] {
      assert s == [s[0]] + s[1..];
      assert DistinctNames(s[1..]) by {
        forall i, j | 0 <= i < j < |s[1..]| ensures s[1..][i].name != s[1..][j].name {
          assert s[1..][i] == s[i + 1] && s[1..][j] == s[j + 1];
        }
      }
      DistinctNamesCount(s[1..], n);
      assert s[0] == n ==> n !in s[1..] by {
        forall k | 0 <= k < |s[1..]| ensures s[1..][k].name != s[0].name {
          assert s[1..][k] == s[k + 1];
        }
      }
    }
  }

  /** Two positions holding the same value make it count twice. */
  lemma {:induction false} RepeatCount(s: seq<Node>, i: nat, j: nat)
    requires i < j < |s|
    ensures s[i] == s[j] ==> multiset(s)[s[i]] >= 2
  {
    assert s == s[..i] + [s[i]] + s[i + 1..j] + [s[j]] + s[j + 1..];
  }

  /** Rearranging nodes of distinct names keeps the names distinct. */
  lemma {:induction false} PermutationKeepsDistinct(a: seq<Node>, b: seq<Node>)
    requires multiset(a) == multiset(b) && DistinctNames(a)
    ensures DistinctNames(b)
  {
    forall i, j | 0 <= i < j < |b| ensures b[i].name != b[j].name {
      assert b[i] in multiset(a) && b[j] in multiset(a);
      var p :| 0 <= p < |a| && a[p] == b[i];
      var q :| 0 <= q < |a| && a[q] == b[j];
      RepeatCount(b, i, j);
      DistinctNamesCount(a, b[i]);
      assert p != q;
    }
  }

  /** With 24 keys of distinct names, no two places of the grid hold the same name. */
  lemma {:induction false} GridNamesDistinct(keys: seq<Node>, r1: nat, c1: nat, r2: nat, c2: nat)
    requires |keys| == KeyCount && DistinctNames(keys)
    requires r1 < RowCount && c1 < ColCount && r2 < RowCount && c2 < ColCount && (r1 != r2 || c1 != c2)
    ensures Grid(keys)[r1][c1].name != Grid(keys)[r2][c2].name
  {
    var g := Grid(keys);
    var f := Flatten(g);
    GridIsPermutation(keys);
    PermutationKeepsDistinct(keys, f);
    FlattenIndex(g, r1, c1);
    FlattenIndex(g, r2, c2);
    var i, j := 6 * r1 + c1, 6 * r2 + c2;
    assert i != j;
    if i < j {
      assert f[i].name != f[j].name;
    } else {
      assert f[j].name != f[i].name;
    }
  }

  /** A node of the flattened grid has a row and a column. */
  lemma {:induction false} GridIndexOf(g: seq<seq<Node>>, n: Node)
    requires IsGrid(g) && n in multiset(Flatten(g))
    ensures exists r, c :: 0 <= r < RowCount && 0 <= c < ColCount && g[r][c] == n
  {
    var f := Flatten(g);
    FlattenIndex(g, 0, 0);
    var i :| 0 <= i < |f| && f[i] == n;
    var r, c := i / 6, i % 6;
    FlattenIndex(g, r, c);
    assert 6 * r + c == i;
  }

  /** Every key of the 24 has a place in the grid, so a code is bound to it. */
  lemma {:induction false} GridHoldsEveryKey(keys: seq<Node>, n: Node)
    requires |keys| == KeyCount && n in keys
    ensures exists r, c :: 0 <= r < RowCount && 0 <= c < ColCount && Grid(keys)[r][c] == n
  {
    GridIsPermutation(keys);
    GridIndexOf(Grid(keys), n);
  }
}
