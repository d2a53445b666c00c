/**
 * getSystemStatus's per-core scan: collect cpu_usage["cpu0"], cpu_usage["cpu1"], ...
 * and stop at the first index whose key is missing.
 */
module CpuCores {
  import opened Text

  /** f'cpu{i}' */
  function CpuKey(i: nat): string {
    "cpu" + NatText(i)
  }

  lemma CpuKeyInjective(i: nat, j: nat)
    ensures CpuKey(i) == CpuKey(j) ==> i == j
  {
    if CpuKey(i) == CpuKey(j) {
      assert NatText(i) == CpuKey(i)[3..];
      assert NatText(j) == CpuKey(j)[3..];
      NatTextInjective(i, j);
    }
  }

  function CpuKeys(n: nat): set<string> {
    set i | 0 <= i < n :: CpuKey(i)
  }

  /** The first n keys are n distinct strings. */
  lemma {:induction false} CpuKeysCount(n: nat)
    ensures |CpuKeys(n)| == n
  {
    if n > 0 {
      CpuKeysCount(n - 1);
      assert CpuKeys(n) == CpuKeys(n - 1) + {CpuKey(n - 1)};
      if CpuKey(n - 1) in CpuKeys(n - 1) {
        var i :| 0 <= i < n - 1 && CpuKey(i) == CpuKey(n - 1);
        CpuKeyInjective(i, n - 1);
      }
    }
  }

  lemma {:induction false} SubsetCardinality<T>(a: set<T>, b: set<T>)
    requires a <= b
    ensures |a| <= |b|
  {
    if a != {} {
      var x :| x in a;
      SubsetCardinality(a - {x}, b - {x});
    }
  }

  /**
   * The usages of cores 0, 1, ... in order, as far as the keys run
   * without a gap; the first missing key ends the list.
   */
  method CoreUsages<V>(cpuUsage: map<string, V>) returns (cores: seq<V>)
    ensures forall j :: 0 <= j < |cores| ==> CpuKey(j) in cpuUsage && cores[j] == cpuUsage[CpuKey(j)]
    ensures CpuKey(|cores|) !in cpuUsage
  {
    cores := [];
    var i := 0;
    while CpuKey(i) in cpuUsage
      invariant i == |cores|
      invariant forall j :: 0 <= j < i ==> CpuKey(j) in cpuUsage && cores[j] == cpuUsage[CpuKey(j)]
      decreases |cpuUsage.Keys| - i
    {
      CpuKeysCount(i + 1);
      assert CpuKeys(i + 1) <= cpuUsage.Keys;
      SubsetCardinality(CpuKeys(i + 1), cpuUsage.Keys);
      cores := cores + [cpuUsage[CpuKey(i)]];
      i := i + 1;
    }
  }
}
