/**
 * The reaction buttons under one paragraph card: four flags and an in-flight flag. Each toggle
 * is a guard, then `loading := true` and a request carrying the new value, then (on success)
 * the flag update, then `loading := false`. The two halves are separate methods, `Press` and
 * `Settle`, so that what happens to a press that arrives while a request is in flight is visible.
 */
module ActionButtons {
  import opened Wrappers
  import opened Reactions

  datatype Button = Like | Dislike | Heart | Bookmark

  /** A toggle whose request is in flight: which button, and the value it will set. */
  datatype Pending = Pending(button: Button, newValue: bool)

  /** The current value of the flag a button toggles. */
  function Current(f: Flags, b: Button): bool {
    match b
    case Like => f.liked
    case Dislike => f.disliked
    case Heart => f.hearted
    case Bookmark => f.bookmarked
  }

  /**
   * The flags a successful request leaves: like and dislike set their own flag and clear the
   * other one, heart and bookmark set only their own.
   */
  function Settled(f: Flags, p: Pending): Flags {
    match p.button
    case Like => f.(liked := p.newValue, disliked := false)
    case Dislike => f.(disliked := p.newValue, liked := false)
    case Heart => f.(hearted := p.newValue)
    case Bookmark => f.(bookmarked := p.newValue)
  }

  /** The flag keys the `createOrUpdateEvent` body carries for a toggle. */
  function PatchFor(p: Pending): FlagPatch {
    match p.button
    case Like => EmptyPatch.(liked := Some(p.newValue), disliked := Some(false))
    case Dislike => EmptyPatch.(disliked := Some(p.newValue), liked := Some(false))
    case Heart => EmptyPatch.(hearted := Some(p.newValue))
    case Bookmark => EmptyPatch.(bookmarked := Some(p.newValue))
  }

  /** The body of the `createOrUpdateEvent` call a press sends. */
  datatype EventRequest = EventRequest(userId: string, paragraphId: string, patch: FlagPatch)

  /**
   * The backend applies the request to the same flags the client holds and arrives at exactly
   * the client's new state: client and server agree after every successful toggle.
   */
  lemma ServerAgreesWithClient(f: Flags, p: Pending)
    ensures Apply(f, PatchFor(p)) == Settled(f, p)
  {
  }

  /** A successful like or dislike never leaves both set; heart and bookmark keep exclusivity. */
  lemma SettledExclusive(f: Flags, p: Pending)
    ensures p.button == Like || p.button == Dislike ==> Exclusive(Settled(f, p))
    ensures Exclusive(f) ==> Exclusive(Settled(f, p))
  {
  }

  /** Toggling a button twice with success restores its flag. */
  lemma ToggleTwice(f: Flags, b: Button)
    ensures var g := Settled(f, Pending(b, !Current(f, b)));
            Current(Settled(g, Pending(b, !Current(g, b))), b) == Current(f, b)
  {
  }

  class ReactionButtons {
    const userId: string
    const paragraphId: string
    var flags: Flags
    var loading: bool
    var pending: Option<Pending>

    /** `loading` is set exactly while a toggle's request is outstanding. */
    ghost predicate Valid()
      reads this
    {
      loading <==> pending.Some?
    }

    /** Initial state: `initialInteractions` when provided, else all four flags false. */
    constructor (userId: string, paragraphId: string, initialInteractions: Option<Flags>)
      ensures Valid() && !loading
      ensures this.userId == userId && this.paragraphId == paragraphId
      ensures flags == initialInteractions.GetOr(NoFlags)
    {
      this.userId := userId;
      this.paragraphId := paragraphId;
      flags := initialInteractions.GetOr(NoFlags);
      loading := false;
      pending := None;
    }

    /**
     * The first half of `handleLike` / `handleDislike` / `handleHeart` / `handleBookmark`: while a
     * request is in flight the press is dropped; otherwise the new value (the negated flag) is
     * captured, `loading` is set and the request is sent. No flag changes yet.
     */
    method Press(b: Button) returns (req: Option<EventRequest>)
      requires Valid()
      modifies this
      ensures Valid() && loading && flags == old(flags)
      ensures old(loading) ==> req.None? && pending == old(pending)
      ensures !old(loading) ==> pending == Some(Pending(b, !Current(old(flags), b)))
      ensures !old(loading) ==> req == Some(EventRequest(userId, paragraphId, PatchFor(pending.value)))
    {
      if loading {
        return None;
      }
      var p := Pending(b, !Current(flags, b));
      loading := true;
      pending := Some(p);
      req := Some(EventRequest(userId, paragraphId, PatchFor(p)));
    }

    /**
     * The second half: when the request succeeded the captured value is applied; when it failed
     * every flag stays as it was. Either way `loading` ends false.
     */
    method Settle(ok: bool)
      requires Valid()
      modifies this
      ensures Valid() && !loading
      ensures old(pending).Some? && ok ==> flags == Settled(old(flags), old(pending).value)
      ensures old(pending).None? || !ok ==> flags == old(flags)
    {
      if pending.Some? && ok {
        flags := Settled(flags, pending.value);
      }
      loading := false;
      pending := None;
    }

    /**
     * The mount effect when no `initialInteractions` were given: a fetched interaction record
     * overwrites all four flags; a failed fetch is swallowed and changes nothing.
     */
    method LoadInteractions(fetched: Result<Flags, string>)
      requires Valid()
      modifies this`flags
      ensures Valid()
      ensures fetched.Ok? ==> flags == fetched.value
      ensures fetched.Err? ==> flags == old(flags)
    {
      if fetched.Ok? {
        flags := fetched.value;
      }
    }

    /** A whole handler run from an idle state: one request, then the outcome applied. */
    method Toggle(b: Button, ok: bool) returns (req: EventRequest)
      requires Valid() && !loading
      modifies this
      ensures Valid() && !loading
      ensures req == EventRequest(userId, paragraphId, PatchFor(Pending(b, !Current(old(flags), b))))
      ensures ok ==> flags == Settled(old(flags), Pending(b, !Current(old(flags), b)))
      ensures ok ==> Current(flags, b) == !Current(old(flags), b)
      ensures !ok ==> flags == old(flags)
    {
      var sent := Press(b);
      req := sent.value;
      Settle(ok);
    }
  }
}
