/**
 * The specification both adapters meet: one map from hashed keys to the
 * fingerprint and item of the create that first used the key, changed in
 * single steps.
 */
module AtomicMap {
  import opened Items

  datatype Entry = Entry(fingerprint: Digest, item: Item)

  /** What a step shows to the outside about one key. */
  datatype Observation =
    | Nothing
    | Made(k: Digest, entry: Entry)
    | Replayed(k: Digest, entry: Entry)
    | Conflicted(k: Digest, fingerprint: Digest)
    | Declined(k: Digest)

  /**
   * Some keys are forgotten, and then a key absent from the map gains an
   * entry, or a call is answered from the entry there, or nothing happens.
   */
  ghost predicate Atomic(live: map<Digest, Entry>, next: map<Digest, Entry>, dropped: set<Digest>, o: Observation) {
    var base := live - dropped;
    match o
    case Nothing => next == base
    case Declined(_) => next == base
    case Made(k, entry) => k !in base && next == base[k := entry]
    case Replayed(k, entry) => k in base && base[k] == entry && next == base
    case Conflicted(k, fingerprint) => k in base && base[k].fingerprint != fingerprint && next == base
  }

  lemma NothingIsAtomic(live: map<Digest, Entry>)
    ensures Atomic(live, live, {}, Nothing)
  {
    assert live - {} == live;
  }

  /** The answers compatible with `entry` being the one entry of key `k`. */
  ghost predicate AgreesWith(o: Observation, k: Digest, entry: Entry) {
    match o
    case Nothing => true
    case Declined(_) => true
    case Made(k', _) => k' != k
    case Replayed(k', entry') => k' == k ==> entry' == entry
    case Conflicted(k', fingerprint) => k' == k ==> fingerprint != entry.fingerprint
  }

  ghost predicate AtomicRun(lives: seq<map<Digest, Entry>>, dropped: seq<set<Digest>>, observed: seq<Observation>) {
    && |lives| == |observed| + 1
    && |dropped| == |observed|
    && forall n :: 0 <= n < |observed| ==> Atomic(lives[n], lives[n + 1], dropped[n], observed[n])
  }

  lemma {:induction false} EntryLastsUntilDropped(
      lives: seq<map<Digest, Entry>>, dropped: seq<set<Digest>>, observed: seq<Observation>,
      i: nat, j: nat, k: Digest, entry: Entry)
    requires AtomicRun(lives, dropped, observed) && i < j <= |observed|
    requires observed[i] == Made(k, entry)
    requires forall m :: i < m < j ==> k !in dropped[m]
    ensures k in lives[j] && lives[j][k] == entry
    ensures forall m :: i < m < j ==> AgreesWith(observed[m], k, entry)
    decreases j
  {
    if i + 1 < j {
      EntryLastsUntilDropped(lives, dropped, observed, i, j - 1, k, entry);
    }
    assert Atomic(lives[j - 1], lives[j], dropped[j - 1], observed[j - 1]);
  }
}
