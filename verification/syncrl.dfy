/** `syncrl.SyncSuite`: a registry of bucket managers by id. */
module SyncSuite {
  import opened Errors
  import SyncManager

  type Manager = SyncManager.Manager

  datatype Suite = Suite(managers: map<string, Manager>)

  /** `New`: no managers. */
  function New(): (s: Suite)
    ensures forall id :: id !in s.managers
  {
    Suite(map[])
  }

  /** `GetManager`: the registered manager, if any. */
  function GetManager(s: Suite, id: string): (r: Option<Manager>)
    ensures r.Some? <==> id in s.managers
    ensures r.Some? ==> r.value == s.managers[id]
  {
    if id in s.managers then Some(s.managers[id]) else None
  }

  /** `AddManager`: registers or replaces the entry for `id` only. */
  function AddManager(s: Suite, id: string, m: Manager): (s': Suite)
    ensures GetManager(s', id) == Some(m)
    ensures forall x :: x != id ==> GetManager(s', x) == GetManager(s, x)
  {
    Suite(s.managers[id := m])
  }

  /** `RemoveManager`: drops the entry for `id` only. */
  function RemoveManager(s: Suite, id: string): (s': Suite)
    ensures GetManager(s', id) == None
    ensures forall x :: x != id ==> GetManager(s', x) == GetManager(s, x)
  {
    Suite(s.managers - {id})
  }

  /** `Purge`: every manager purges its own buckets; no manager is ever
      removed from the suite, however empty it becomes. */
  function Purge(s: Suite, remaining: SyncManager.Bucket -> int): (s': Suite)
    ensures s'.managers.Keys == s.managers.Keys
    ensures forall id :: id in s.managers ==> s'.managers[id] == SyncManager.Purge(s.managers[id], remaining)
  {
    Suite(map id | id in s.managers :: SyncManager.Purge(s.managers[id], remaining))
  }

  /** A purge never takes a level away: what was registered is still found,
      with the same limit and reset. */
  lemma PurgeKeepsManagers(s: Suite, remaining: SyncManager.Bucket -> int, id: string)
    requires GetManager(s, id).Some?
    ensures GetManager(Purge(s, remaining), id).Some?
    ensures GetManager(Purge(s, remaining), id).value.limit == s.managers[id].limit
    ensures GetManager(Purge(s, remaining), id).value.reset == s.managers[id].reset
  {
  }
}
