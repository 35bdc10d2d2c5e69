/** `startapp` of meesee.py, reduced to the ids it hands its workers. The
    process pool itself is not modelled. */
module App {
  import opened Store

  /** `range(lo, hi)`. */
  function Range(lo: int, hi: int): (r: seq<int>)
    ensures |r| == if lo < hi then hi - lo else 0
    ensures forall i :: 0 <= i < |r| ==> r[i] == lo + i
    ensures forall x :: x in r <==> lo <= x < hi
    decreases hi - lo
  {
    if lo >= hi then [] else [lo] + Range(lo + 1, hi)
  }

  /** The worker ids `startapp` passes to `run_worker`: `1..workers`, one
      per pool process. `Pool(workers)` is created first and refuses fewer
      than one process, so then there are no ids at all. */
  function WorkerIds(workers: int): (r: Option<seq<int>>)
    ensures r.Some? <==> workers >= 1
    ensures r.Some? ==> |r.value| == workers
    ensures r.Some? ==> forall id :: id in r.value <==> 1 <= id <= workers
    ensures r.Some? ==> forall i, j :: 0 <= i < j < |r.value| ==> r.value[i] < r.value[j]
  {
    if workers < 1 then None
    else
      Some(Range(1, workers + 1))
  }
}
