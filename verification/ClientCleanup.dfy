/**
 Removing a client with everything that descends from it. Clients name their parent, which may be
 missing, may be the client itself, or may close a cycle.
 */
module ClientCleanup {
  import opened Bytes

  type Clients = map<string, Option<string>>

  /** Following `n` parent links from `id` leads to `root`. */
  ghost predicate LeadsTo(clients: Clients, id: string, root: string, n: nat)
    decreases n
  {
    if n == 0 then id == root
    else id in clients && clients[id].Some? && LeadsTo(clients, clients[id].value, root, n - 1)
  }

  /** The client itself, or one whose chain of parents reaches it. */
  ghost predicate Descends(clients: Clients, id: string, root: string) {
    exists n: nat :: LeadsTo(clients, id, root, n)
  }

  predicate ParentIn(clients: Clients, id: string, s: set<string>)
    requires id in clients
  {
    clients[id].Some? && clients[id].value in s
  }

  lemma {:induction false} ClosedContainsDescendants(clients: Clients, root: string, s: set<string>, id: string, n: nat)
    requires root in s
    requires forall c | c in clients && ParentIn(clients, c, s) :: c in s
    requires LeadsTo(clients, id, root, n)
    ensures id in s
    decreases n
  {
    if n > 0 {
      ClosedContainsDescendants(clients, root, s, clients[id].value, n - 1);
      assert ParentIn(clients, id, s);
    }
  }

  lemma ChildDescends(clients: Clients, id: string, root: string)
    requires id in clients && clients[id].Some? && Descends(clients, clients[id].value, root)
    ensures Descends(clients, id, root)
  {
    var n: nat :| LeadsTo(clients, clients[id].value, root, n);
    assert LeadsTo(clients, id, root, n + 1);
  }

  /** One pass over the clients, in whatever order the map yields them. */
  method Pass(clients: Clients, root: string, before: set<string>) returns (s: set<string>, changed: bool)
    requires before <= clients.Keys && forall id | id in before :: Descends(clients, id, root)
    ensures before <= s <= clients.Keys && forall id | id in s :: Descends(clients, id, root)
    ensures changed <==> s != before
    ensures !changed ==> forall id | id in clients && ParentIn(clients, id, s) :: id in s
  {
    s, changed := before, false;
    var left := clients.Keys;
    while left != {}
      invariant left <= clients.Keys
      invariant before <= s <= clients.Keys && forall id | id in s :: Descends(clients, id, root)
      invariant changed <==> s != before
      invariant !changed ==> forall id | id in clients.Keys - left && ParentIn(clients, id, s) :: id in s
      decreases left
    {
      var id :| id in left;
      left := left - {id};
      if clients[id].Some? {
        if clients[id].value in s && id !in s {
          ChildDescends(clients, id, root);
          s := s + {id};
          changed := true;
        }
      }
    }
  }

  /** The deletion set: exactly the clients whose chain of parents reaches the root, for any graph of parents. */
  method DeletionSet(clients: Clients, root: string) returns (toRemove: set<string>)
    requires root in clients
    ensures forall id :: id in toRemove <==> Descends(clients, id, root)
    ensures toRemove <= clients.Keys
  {
    toRemove := {root};
    assert LeadsTo(clients, root, root, 0);
    var changed := true;
    while changed
      invariant root in toRemove && toRemove <= clients.Keys
      invariant forall id | id in toRemove :: Descends(clients, id, root)
      invariant !changed ==> forall id | id in clients && ParentIn(clients, id, toRemove) :: id in toRemove
      decreases clients.Keys - toRemove, changed
    {
      toRemove, changed := Pass(clients, root, toRemove);
    }
    forall id | Descends(clients, id, root) ensures id in toRemove {
      var n: nat :| LeadsTo(clients, id, root, n);
      ClosedContainsDescendants(clients, root, toRemove, id, n);
    }
  }

  class ClientTable {
    var clients: Clients

    constructor ()
      ensures clients == map[]
    {
      clients := map[];
    }

    /** Removes the client's descendants and nothing else; no remaining client has a removed parent. */
    method CleanupClient(id: string) returns (removed: Option<set<string>>)
      modifies this
      ensures removed.None? <==> id !in old(clients)
      ensures removed.None? ==> clients == old(clients)
      ensures removed.Some? ==>
                && (forall c :: c in removed.value <==> Descends(old(clients), c, id))
                && clients == old(clients) - removed.value
                && forall c | c in clients :: !ParentIn(clients, c, removed.value)
    {
      if id !in clients {
        return None;
      }
      var toRemove := DeletionSet(clients, id);
      var left := toRemove;
      while left != {}
        invariant left <= toRemove
        invariant clients == old(clients) - (toRemove - left)
        decreases left
      {
        var c :| c in left;
        clients := clients - {c};
        left := left - {c};
      }
      forall c | c in clients ensures !ParentIn(clients, c, toRemove) {
        if ParentIn(clients, c, toRemove) {
          ChildDescends(old(clients), c, id);
        }
      }
      removed := Some(toRemove);
    }
  }
}
