/**
 * Material-run grouping (`_getGroups`): per-face material ids become groups of
 * triangle-index offsets, one group per maximal run of equal ids.
 */
module Grouping {
  import opened Wrappers

  /** A group record: `start` and `count` are offsets into the triangle-index arrays (3 per face). */
  datatype Group = Group(start: int, count: int, materialIndex: int)

  /** The number of faces a group covers. */
  function FaceCount(g: Group): nat
  {
    if g.count <= 0 then 0 else g.count / 3
  }

  function Repeat(m: int, n: nat): (r: seq<int>)
    ensures |r| == n && forall i :: 0 <= i < n ==> r[i] == m
  {
    if n == 0 then [] else Repeat(m, n - 1) + [m]
  }

  /** The per-face material ids a sequence of groups stands for. */
  function Expand(gs: seq<Group>): seq<int>
  {
    if gs == [] then []
    else Expand(gs[..|gs| - 1]) + Repeat(gs[|gs| - 1].materialIndex, FaceCount(gs[|gs| - 1]))
  }

  /**
   * `gs` partitions [0, 3 * faces) contiguously from 0 into non-empty groups
   * of whole faces, and neighbouring groups have different materials.
   */
  ghost predicate IsRunLayout(gs: seq<Group>, faces: nat)
  {
    |gs| > 0 && gs[0].start == 0 &&
    (forall k :: 0 <= k < |gs| ==> gs[k].count > 0 && gs[k].count % 3 == 0 && gs[k].start % 3 == 0) &&
    (forall k :: 0 <= k < |gs| - 1 ==> gs[k + 1].start == gs[k].start + gs[k].count) &&
    gs[|gs| - 1].start + gs[|gs| - 1].count == 3 * faces &&
    (forall k :: 0 <= k < |gs| - 1 ==> gs[k].materialIndex != gs[k + 1].materialIndex)
  }

  /** `gs` is a run layout of the faces of `ids`, and expanding the groups gives back `ids`. */
  ghost predicate IsRunPartition(gs: seq<Group>, ids: seq<int>)
  {
    IsRunLayout(gs, |ids|) && Expand(gs) == ids
  }

  /** The maximal runs of equal ids, built face by face: a face either extends the last run or opens a new one. */
  function Runs(ids: seq<int>): (gs: seq<Group>)
    requires |ids| > 0
    ensures |gs| > 0
  {
    if |ids| == 1 then [Group(0, 3, ids[0])]
    else
      var p := Runs(ids[..|ids| - 1]);
      var last := p[|p| - 1];
      if ids[|ids| - 1] == last.materialIndex then
        p[..|p| - 1] + [Group(last.start, last.count + 3, last.materialIndex)]
      else
        p + [Group(3 * (|ids| - 1), 3, ids[|ids| - 1])]
  }

  /** Growing the last group by one face appends one copy of its material to the expansion. */
  lemma ExpandExtend(p: seq<Group>)
    requires |p| > 0 && p[|p| - 1].count > 0 && p[|p| - 1].count % 3 == 0
    ensures var last := p[|p| - 1];
      Expand(p[..|p| - 1] + [Group(last.start, last.count + 3, last.materialIndex)])
        == Expand(p) + [last.materialIndex]
  {
    var k := |p| - 1;
    var last := p[k];
    var g := Group(last.start, last.count + 3, last.materialIndex);
    var gs := p[..k] + [g];
    assert gs[..k] == p[..k];
    assert FaceCount(g) == FaceCount(last) + 1;
    assert Repeat(g.materialIndex, FaceCount(g)) == Repeat(last.materialIndex, FaceCount(last)) + [last.materialIndex];
  }

  /** Growing the last group by one face keeps a run layout, one face longer. */
  lemma ExtendLayout(p: seq<Group>, faces: nat)
    requires IsRunLayout(p, faces)
    ensures var last := p[|p| - 1];
      IsRunLayout(p[..|p| - 1] + [Group(last.start, last.count + 3, last.materialIndex)], faces + 1)
  {
    var k := |p| - 1;
    var last := p[k];
    var gs := p[..k] + [Group(last.start, last.count + 3, last.materialIndex)];
    forall j | 0 <= j < |gs|
      ensures gs[j].count > 0 && gs[j].count % 3 == 0 && gs[j].start % 3 == 0
    {
      if j < k { assert gs[j] == p[j]; }
    }
    forall j | 0 <= j < |gs| - 1
      ensures gs[j + 1].start == gs[j].start + gs[j].count
      ensures gs[j].materialIndex != gs[j + 1].materialIndex
    {
      assert gs[j] == p[j];
      assert gs[j + 1].start == p[j + 1].start && gs[j + 1].materialIndex == p[j + 1].materialIndex;
    }
  }

  /** Extending the last group by one face with its own material keeps a run partition. */
  lemma ExtendLastRun(p: seq<Group>, pre: seq<int>, x: int)
    requires IsRunPartition(p, pre)
    requires x == p[|p| - 1].materialIndex
    ensures var last := p[|p| - 1];
      IsRunPartition(p[..|p| - 1] + [Group(last.start, last.count + 3, last.materialIndex)], pre + [x])
  {
    ExtendLayout(p, |pre|);
    ExpandExtend(p);
  }

  /** Appending a group of one face with a material different from the last keeps a run layout, one face longer. */
  lemma OpenLayout(p: seq<Group>, faces: nat, x: int)
    requires IsRunLayout(p, faces)
    requires x != p[|p| - 1].materialIndex
    ensures IsRunLayout(p + [Group(3 * faces, 3, x)], faces + 1)
  {
    var gs := p + [Group(3 * faces, 3, x)];
    forall k | 0 <= k < |gs|
      ensures gs[k].count > 0 && gs[k].count % 3 == 0 && gs[k].start % 3 == 0
    {
      if k < |p| { assert gs[k] == p[k]; }
    }
    forall k | 0 <= k < |gs| - 1
      ensures gs[k + 1].start == gs[k].start + gs[k].count
      ensures gs[k].materialIndex != gs[k + 1].materialIndex
    {
      assert gs[k] == p[k];
      if k + 1 < |p| { assert gs[k + 1] == p[k + 1]; }
    }
  }

  /** A face whose material differs from the last group's opens a new group of 3 indices. */
  lemma OpenNewRun(p: seq<Group>, pre: seq<int>, x: int)
    requires IsRunPartition(p, pre)
    requires x != p[|p| - 1].materialIndex
    ensures IsRunPartition(p + [Group(3 * |pre|, 3, x)], pre + [x])
  {
    OpenLayout(p, |pre|, x);
    var gs := p + [Group(3 * |pre|, 3, x)];
    assert gs[..|gs| - 1] == p;
    assert Repeat(x, 1) == [x];
    assert Expand(gs) == Expand(p) + Repeat(x, 1);
  }

  lemma {:induction false} RunsArePartition(ids: seq<int>)
    requires |ids| > 0
    ensures IsRunPartition(Runs(ids), ids)
  {
    var n := |ids| - 1;
    if n == 0 {
      var gs := [Group(0, 3, ids[0])];
      assert Runs(ids) == gs;
      assert gs[..0] == [];
      assert Expand(gs) == Expand([]) + Repeat(ids[0], 1);
    } else {
      var pre := ids[..n];
      assert ids == pre + [ids[n]];
      RunsArePartition(pre);
      var p := Runs(pre);
      var last := p[|p| - 1];
      if ids[n] == last.materialIndex {
        ExtendLastRun(p, pre, ids[n]);
        assert Runs(ids) == p[..|p| - 1] + [Group(last.start, last.count + 3, last.materialIndex)];
      } else {
        OpenNewRun(p, pre, ids[n]);
        assert Runs(ids) == p + [Group(3 * |pre|, 3, ids[n])];
      }
    }
  }

  /** When every face has the same id, the runs are the single whole-mesh group. */
  lemma {:induction false} RunsUniform(ids: seq<int>)
    requires |ids| > 0
    requires forall i :: 0 <= i < |ids| ==> ids[i] == ids[0]
    ensures Runs(ids) == [Group(0, 3 * |ids|, ids[0])]
  {
    if |ids| > 1 {
      RunsUniform(ids[..|ids| - 1]);
    }
  }

  /** The general scan of `_getGroups` (its `else` branch), with running `lastId` and `start`. */
  method ScanRuns(matIds: seq<int>) returns (groups: seq<Group>)
    requires |matIds| > 0
    ensures groups == Runs(matIds)
  {
    groups := [];
    var lastId := matIds[0];
    var start := 0;
    for idx := 0 to |matIds|
      invariant ScanState(matIds, idx, groups, start, lastId)
    {
      RunsScanStep(matIds, idx, groups, start, lastId);
      if matIds[idx] != lastId {
        groups := groups + [Group(start * 3, (idx - start) * 3, lastId)];
        lastId := matIds[idx];
        start := idx;
      }
    }
    ScanDone(matIds, groups, start, lastId);
    groups := groups + [Group(start * 3, (|matIds| - start) * 3, lastId)];
  }

  /**
   * The state of the scan after `idx` faces: `groups` holds the closed runs
   * and the open run starts at face `start` with material `lastId`; together
   * they are the runs of the faces seen so far.
   */
  ghost predicate ScanState(ids: seq<int>, idx: nat, groups: seq<Group>, start: nat, lastId: int)
  {
    0 <= start < |ids| && start <= idx <= |ids| && lastId == ids[start] &&
    (idx == 0 ==> groups == [] && start == 0) &&
    (idx > 0 ==> start < idx && Runs(ids[..idx]) == groups + [Group(start * 3, (idx - start) * 3, lastId)])
  }

  /** One iteration of the scan: a different id closes the open run and opens a new one, an equal id extends it. */
  lemma RunsScanStep(ids: seq<int>, idx: nat, groups: seq<Group>, start: nat, lastId: int)
    requires idx < |ids| && ScanState(ids, idx, groups, start, lastId)
    ensures ids[idx] != lastId ==>
      ScanState(ids, idx + 1, groups + [Group(start * 3, (idx - start) * 3, lastId)], idx, ids[idx])
    ensures ids[idx] == lastId ==> ScanState(ids, idx + 1, groups, start, lastId)
  {
    if idx == 0 {
      assert ids[..1] == [ids[0]];
    } else {
      var pre := ids[..idx + 1];
      assert pre[..idx] == ids[..idx];
      var p := Runs(ids[..idx]);
      assert p[..|p| - 1] == groups;
    }
  }

  /** Once every face is scanned, closing the open run gives the runs of all faces. */
  lemma ScanDone(ids: seq<int>, groups: seq<Group>, start: nat, lastId: int)
    requires |ids| > 0 && ScanState(ids, |ids|, groups, start, lastId)
    ensures groups + [Group(start * 3, (|ids| - start) * 3, lastId)] == Runs(ids)
  {
    assert ids[..|ids|] == ids;
  }

  /**
   * The grouping of `_getGroups` once the per-face material ids are known. With
   * no faces, `matIds[0]` raises `IndexError`; when all ids are equal, the
   * single whole-mesh group is returned directly; otherwise the general scan runs.
   */
  method GroupRuns(matIds: seq<int>) returns (r: Result<seq<Group>>)
    ensures r.Failure? <==> |matIds| == 0
    ensures r.Success? ==> r.value == Runs(matIds) && IsRunPartition(r.value, matIds)
  {
    if |matIds| == 0 {
      return Failure(IndexError);
    }
    if forall i | 0 <= i < |matIds| :: matIds[i] == matIds[0] {
      RunsUniform(matIds);
      RunsArePartition(matIds);
      return Success([Group(0, |matIds| * 3, matIds[0])]);
    }
    var groups := ScanRuns(matIds);
    RunsArePartition(matIds);
    return Success(groups);
  }
}
