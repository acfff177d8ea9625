/** The wait list of an IPC object: rt_ipc_list_suspend of src/ipc.c. */
module IpcList {

  /** RT_IPC_FLAG_FIFO and RT_IPC_FLAG_PRIO. A smaller number is a better priority. */
  datatype Flag = Fifo | Prio

  /** Where a thread of priority p goes in a list of threads with these priorities. */
  function Position(prios: seq<nat>, p: nat, flag: Flag): (k: nat)
    ensures k <= |prios|
    ensures flag.Fifo? ==> k == |prios|
    ensures flag.Prio? ==> (forall i :: 0 <= i < k ==> prios[i] <= p) && (k < |prios| ==> p < prios[k])
  {
    if prios == [] then 0
    else if flag.Prio? && p < prios[0] then 0
    else 1 + Position(prios[1..], p, flag)
  }

  function Insert<T(!new)>(q: seq<T>, k: nat, x: T): (r: seq<T>)
    requires k <= |q|
    ensures |r| == |q| + 1 && r[k] == x
    ensures forall i :: 0 <= i < |r| ==> r[i] == if i < k then q[i] else if i == k then x else q[i - 1]
    ensures forall y :: y in r <==> y in q || y == x
  {
    q[..k] + [x] + q[k..]
  }

  predicate Sorted(prios: seq<nat>) {
    forall i, j :: 0 <= i < j < |prios| ==> prios[i] <= prios[j]
  }

  /** A priority list stays sorted, and a newcomer goes behind its equals. */
  lemma InsertKeepsSorted(prios: seq<nat>, p: nat)
    requires Sorted(prios)
    ensures var k := Position(prios, p, Prio);
            && Sorted(Insert(prios, k, p))
            && forall i :: 0 <= i < |prios| ==> (i < k <==> prios[i] <= p)
  {
    var k := Position(prios, p, Prio);
    forall i | 0 <= i < |prios|
      ensures i < k <==> prios[i] <= p
    {
      if i >= k { assert prios[k] <= prios[i]; }
    }
    var r := Insert(prios, k, p);
    hide Position;
    hide Insert;
    forall i, j | 0 <= i < j < |r|
      ensures r[i] <= r[j]
    {
    }
  }

  /** The search loop of rt_ipc_list_suspend. */
  method FindPosition(prios: seq<nat>, p: nat, flag: Flag) returns (k: nat)
    ensures k == Position(prios, p, flag)
  {
    if flag.Fifo? { return |prios|; }
    k := 0;
    while k < |prios| && prios[k] <= p
      invariant k <= |prios|
      invariant Position(prios, p, flag) == k + Position(prios[k..], p, flag)
    {
      k := k + 1;
    }
  }
}
