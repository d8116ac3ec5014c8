/** `VisitedLinkCache`: the set of article links already written to, and the
    pickle file that keeps it across restarts. */
module LinkCache {
  import opened Wrappers

  type Link = string

  /** The in-memory set of visited links. */
  datatype Cache = Cache(entries: set<Link>)

  /** The backing file as the loader finds it: absent; present but failing
      with an I/O error when opened or read; left empty or partial by a save
      that failed after opening it for writing; or holding a saved set. */
  datatype Store = NoFile | Unreadable | Truncated | Saved(links: set<Link>)

  /** Loading a truncated file makes `pickle.load` raise an error that is not
      an `IOError`; nothing catches it, so start-up ends. */
  datatype LoadError = Undecodable

  /** How a `_do_permanent_save` goes: it succeeds, `open` fails (the file is
      untouched), or `open` truncates the file and `pickle.dump` or `close`
      then fails. Every failure is an `IOError` that is logged and swallowed. */
  datatype SaveFault = SaveOk | OpenFails | WriteFails

  /** `VisitedLinkCache()`: `self.cache = set()` followed by
      `_load_permanent_entries`. An absent file leaves the cache empty, an
      I/O error is logged and also leaves it empty, a readable file replaces
      it with the saved set, and a truncated file ends start-up. */
  function Load(store: Store): (r: Result<Cache, LoadError>)
    ensures r.Failure? <==> store.Truncated?
    ensures store.Saved? ==> r == Success(Cache(store.links))
    ensures store.NoFile? || store.Unreadable? ==> r == Success(Cache({}))
  {
    match store
    case NoFile => Success(Cache({}))
    case Unreadable => Success(Cache({}))
    case Truncated => Failure(Undecodable)
    case Saved(links) => Success(Cache(links))
  }

  /** `is_hit`: set membership. */
  predicate IsHit(c: Cache, link: Link) {
    link in c.entries
  }

  /** `add_entry`, in memory: afterwards the link is a hit, and no other
      link's membership changes. */
  function AddEntry(c: Cache, link: Link): (r: Cache)
    ensures IsHit(r, link)
    ensures forall other :: other != link ==> (IsHit(r, other) <==> IsHit(c, other))
  {
    Cache(c.entries + {link})
  }

  /** `_do_permanent_save`: the whole set is written to the file. A failing
      `open` leaves the file as it was; a failure after `open` leaves it
      truncated. */
  function Save(c: Cache, store: Store, fault: SaveFault): (s: Store)
    ensures fault.SaveOk? ==> Load(s) == Success(c)
    ensures fault.OpenFails? ==> s == store
    ensures fault.WriteFails? ==> Load(s).Failure?
  {
    match fault
    case SaveOk => Saved(c.entries)
    case OpenFails => store
    case WriteFails => Truncated
  }

  /** Adding is idempotent, and adding a link that is already a hit changes nothing. */
  lemma AddEntryIdempotent(c: Cache, link: Link)
    ensures AddEntry(AddEntry(c, link), link) == AddEntry(c, link)
    ensures IsHit(c, link) ==> AddEntry(c, link) == c
  {
  }

  /** Membership never shrinks, and grows by at most the added link. */
  lemma AddEntryMonotone(c: Cache, link: Link)
    ensures c.entries <= AddEntry(c, link).entries
    ensures AddEntry(c, link).entries - c.entries <= {link}
  {
  }

  /** A committed link survives a restart only if its save succeeded: then
      reloading the file yields a cache in which the link and every earlier
      hit are hits. A save that fails after `open` leaves a file whose
      reload ends start-up. */
  lemma CommittedLinkSurvivesRestart(c: Cache, store: Store, link: Link)
    ensures Load(Save(AddEntry(c, link), store, SaveOk)).Success?
    ensures IsHit(Load(Save(AddEntry(c, link), store, SaveOk)).value, link)
    ensures forall l :: IsHit(c, l) ==> IsHit(Load(Save(AddEntry(c, link), store, SaveOk)).value, l)
    ensures Load(Save(AddEntry(c, link), store, WriteFails)).Failure?
  {
  }
}
