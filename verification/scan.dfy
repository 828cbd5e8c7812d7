/** The direction-skipping walk shared by `PossibleMoves` and `ControlledPositions`:
    a table is walked in order, and once an examined move blocks, the moves that follow it
    in the same direction are skipped until a move of another direction comes up. The
    walk itself is `Examined`; `Open` says the same thing without the walk's state. */
module Scan {
  import opened Wrappers
  import opened Squares

  /** `j` and `i` lie in one unbroken run of equal directions. */
  predicate SameRun(dirs: seq<Dir>, j: int, i: int) {
    && 0 <= j <= i < |dirs|
    && forall k :: j <= k <= i ==> dirs[k] == dirs[i]
  }

  /** No earlier move of `i`'s run blocks. */
  predicate Open(dirs: seq<Dir>, blocks: seq<bool>, i: int)
    requires |blocks| == |dirs|
  {
    forall j :: 0 <= j < i && SameRun(dirs, j, i) ==> !blocks[j]
  }

  /** The walk of the source's loop: `skip` is `skipDirection` (`None` for `Move_0`). A move
      along `skip` is passed over and leaves `skip` alone; any other move is examined,
      resets `skip`, and sets it to its own direction when it blocks. */
  function Examined(dirs: seq<Dir>, blocks: seq<bool>, skip: Option<Dir>): (r: seq<bool>)
    requires |blocks| == |dirs|
    ensures |r| == |dirs|
  {
    if dirs == [] then []
    else if skip == Some(dirs[0]) then
      [false] + Examined(dirs[1..], blocks[1..], skip)
    else
      [true] + Examined(dirs[1..], blocks[1..], if blocks[0] then Some(dirs[0]) else None)
  }

  lemma {:induction false} ExaminedFrom(dirs: seq<Dir>, blocks: seq<bool>, skip: Option<Dir>, i: int)
    requires |blocks| == |dirs| && 0 <= i < |dirs|
    ensures Examined(dirs, blocks, skip)[i] <==>
      Open(dirs, blocks, i) && !(skip == Some(dirs[i]) && SameRun(dirs, 0, i))
    decreases |dirs|
  {
    var skip' := if skip == Some(dirs[0]) then skip else if blocks[0] then Some(dirs[0]) else None;
    if i > 0 {
      var ds, bs := dirs[1..], blocks[1..];
      ExaminedFrom(ds, bs, skip', i - 1);
      assert Examined(dirs, blocks, skip)[i] == Examined(ds, bs, skip')[i - 1];
      assert SameRun(ds, 0, i - 1) <==> forall k :: 1 <= k <= i ==> dirs[k] == dirs[i] by {
        if SameRun(ds, 0, i - 1) {
          forall k | 1 <= k <= i ensures dirs[k] == dirs[i] {
            assert ds[k - 1] == dirs[k];
          }
        }
        if forall k :: 1 <= k <= i ==> dirs[k] == dirs[i] {
          forall k | 0 <= k <= i - 1 ensures ds[k] == ds[i - 1] {
            assert ds[k] == dirs[k + 1];
          }
        }
      }
      assert SameRun(dirs, 0, i) <==> dirs[0] == dirs[i] && SameRun(ds, 0, i - 1);
      forall j | 1 <= j < i
        ensures SameRun(dirs, j, i) <==> SameRun(ds, j - 1, i - 1)
      {
        if SameRun(ds, j - 1, i - 1) {
          forall k | j <= k <= i ensures dirs[k] == dirs[i] {
            assert dirs[k] == ds[k - 1];
          }
        }
        if SameRun(dirs, j, i) {
          forall k | j - 1 <= k <= i - 1 ensures ds[k] == ds[i - 1] {
            assert ds[k] == dirs[k + 1];
          }
        }
      }
      assert Open(dirs, blocks, i) <==>
        Open(ds, bs, i - 1) && !(blocks[0] && SameRun(dirs, 0, i)) by {
        if Open(ds, bs, i - 1) && !(blocks[0] && SameRun(dirs, 0, i)) {
          forall j | 0 <= j < i && SameRun(dirs, j, i) ensures !blocks[j] {
            if j > 0 {
              assert bs[j - 1] == blocks[j];
            }
          }
        }
        if Open(dirs, blocks, i) {
          forall j | 0 <= j < i - 1 && SameRun(ds, j, i - 1) ensures !bs[j] {
            assert SameRun(dirs, j + 1, i);
          }
        }
      }
    }
  }

  /** The walk examines exactly the moves no earlier move of the same run blocks: once a
      direction is blocked, the rest of that run is skipped. */
  lemma ExaminedOpen(dirs: seq<Dir>, blocks: seq<bool>, i: int)
    requires |blocks| == |dirs| && 0 <= i < |dirs|
    ensures Examined(dirs, blocks, None)[i] <==> Open(dirs, blocks, i)
  {
    ExaminedFrom(dirs, blocks, None, i);
  }

  /** In a table whose directions stand together, `i`'s run reaches back to every earlier
      move of the same direction. */
  lemma ContiguousRun(dirs: seq<Dir>, j: int, i: int)
    requires forall a, b, c :: 0 <= a < b < c < |dirs| && dirs[a] == dirs[c] ==> dirs[b] == dirs[a]
    requires 0 <= j <= i < |dirs| && dirs[j] == dirs[i]
    ensures SameRun(dirs, j, i)
  {
  }

  /** The last index whose flag is set. */
  function Last(flags: seq<bool>): (r: Option<nat>)
    ensures r.Some? ==> r.value < |flags| && flags[r.value]
    ensures r.Some? ==> forall j :: r.value < j < |flags| ==> !flags[j]
    ensures r.None? <==> forall j :: 0 <= j < |flags| ==> !flags[j]
  {
    if flags == [] then None
    else if flags[|flags| - 1] then Some(|flags| - 1)
    else
      var r := Last(flags[..|flags| - 1]);
      assert forall j :: 0 <= j < |flags| - 1 ==> flags[..|flags| - 1][j] == flags[j];
      r
  }

  /** The first index whose flag is set. */
  function First(flags: seq<bool>): (r: Option<nat>)
    ensures r.Some? ==> r.value < |flags| && flags[r.value]
    ensures r.Some? ==> forall j :: 0 <= j < r.value ==> !flags[j]
    ensures r.None? <==> forall j :: 0 <= j < |flags| ==> !flags[j]
  {
    if flags == [] then None
    else if flags[0] then Some(0)
    else
      var r := First(flags[1..]);
      assert forall j :: 1 <= j < |flags| ==> flags[1..][j - 1] == flags[j];
      if r.Some? then Some(r.value + 1) else None
  }
}
