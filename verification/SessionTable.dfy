/**
 The table of a session store, identifier to session
 (AgentBridge/session.go:189-211). The store holds session objects and the
 model of whole runs holds session numbers; both use these operations.
 */
module SessionTable {
  import opened Common

  function Registered<T>(table: map<string, T>, key: string, session: T): map<string, T> {
    table[key := session]
  }

  /** The entry goes only if it is still the session's own. */
  function Removed<T(==)>(table: map<string, T>, key: string, session: T): map<string, T> {
    if key in table && table[key] == session then table - {key} else table
  }

  function Found<T>(table: map<string, T>, key: string): Option<T> {
    if key in table then Some(table[key]) else None
  }

  /** `numbers` gives different sessions different numbers. */
  ghost predicate Numbering<S>(numbers: map<S, nat>) {
    forall a, b :: a in numbers && b in numbers && numbers[a] == numbers[b] ==> a == b
  }

  /** The second table is the first with every session replaced by its number. */
  ghost predicate Mirrors<S>(table: map<string, S>, holders: map<string, nat>, numbers: map<S, nat>) {
    && Numbering(numbers)
    && table.Keys == holders.Keys
    && forall key :: key in table ==> table[key] in numbers && holders[key] == numbers[table[key]]
  }

  /** The numbered table follows the table of objects through every operation, and lookups agree. */
  lemma MirrorsThroughout<S>(table: map<string, S>, holders: map<string, nat>, numbers: map<S, nat>, key: string,
                             session: S)
    requires Mirrors(table, holders, numbers) && session in numbers
    ensures Mirrors(Registered(table, key, session), Registered(holders, key, numbers[session]), numbers)
    ensures Mirrors(Removed(table, key, session), Removed(holders, key, numbers[session]), numbers)
    ensures match Found(table, key)
            case None => Found(holders, key) == None
            case Some(s) => s in numbers && Found(holders, key) == Some(numbers[s])
  {
  }

  /** A new session, given a number beyond all others, is registered in both. */
  lemma MirrorsNewcomer<S>(table: map<string, S>, holders: map<string, nat>, numbers: map<S, nat>, key: string,
                           session: S, n: nat)
    requires Mirrors(table, holders, numbers) && session !in numbers
    requires forall s :: s in numbers ==> numbers[s] < n
    ensures Mirrors(Registered(table, key, session), Registered(holders, key, n), numbers[session := n])
  {
    MirrorsThroughout(table, holders, numbers[session := n], key, session);
  }
}
