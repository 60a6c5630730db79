/**
 The three-level answer trace keyed by section id, task id and question id,
 as both the scorer (`sections[s].tasks[t].questions[q]`) and the gateway
 (`results[client][s][t][q]`) keep it. Writing a key creates the missing
 levels on the way down, as the source's `if (!x[k]) x[k] = {}` chains do.
 */
module Nested {
  import opened Wrappers

  type Trace<V> = map<string, map<string, map<string, V>>>

  /** The entry at (s, t, q), if every level exists. */
  function Get<V>(m: Trace<V>, s: string, t: string, q: string): Option<V> {
    if s in m && t in m[s] && q in m[s][t] then Some(m[s][t][q]) else None
  }

  /** Writes `v` at (s, t, q), creating missing levels. */
  function Put<V>(m: Trace<V>, s: string, t: string, q: string, v: V): (r: Trace<V>)
    ensures Get(r, s, t, q) == Some(v)
    ensures forall s', t', q' :: (s', t', q') != (s, t, q) ==> Get(r, s', t', q') == Get(m, s', t', q')
    ensures r.Keys == m.Keys + {s}
  {
    var tasks := if s in m then m[s] else map[];
    var questions := if t in tasks then tasks[t] else map[];
    m[s := tasks[t := questions[q := v]]]
  }

  /** Every key triple that holds an entry. */
  function Entries<V>(m: Trace<V>): set<(string, string, string)> {
    set s, t, q | s in m && t in m[s] && q in m[s][t] :: (s, t, q)
  }

  lemma EntriesMeansGet<V>(m: Trace<V>, s: string, t: string, q: string)
    ensures (s, t, q) in Entries(m) <==> Get(m, s, t, q).Some?
  {
  }

  /** Writing a key adds it to the entries and changes nothing else about them. */
  lemma PutEntries<V>(m: Trace<V>, s: string, t: string, q: string, v: V)
    ensures Entries(Put(m, s, t, q, v)) == Entries(m) + {(s, t, q)}
  {
    var r := Put(m, s, t, q, v);
    forall k | k in Entries(r)
      ensures k in Entries(m) + {(s, t, q)}
    {
      EntriesMeansGet(r, k.0, k.1, k.2);
      EntriesMeansGet(m, k.0, k.1, k.2);
    }
    forall k | k in Entries(m) + {(s, t, q)}
      ensures k in Entries(r)
    {
      EntriesMeansGet(r, k.0, k.1, k.2);
      EntriesMeansGet(m, k.0, k.1, k.2);
    }
  }
}
