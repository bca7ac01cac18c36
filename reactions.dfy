/**
 * The four reaction flags one user holds on one paragraph, shared by the browser client and
 * the backend, and the partial update a request body carries (only present keys are applied).
 */
module Reactions {
  import opened Wrappers

  datatype Flags = Flags(liked: bool, disliked: bool, hearted: bool, bookmarked: bool)

  /** The flags of a fresh event and of the "no interaction yet" answer. */
  const NoFlags: Flags := Flags(false, false, false, false)

  /** Liked and disliked are never both set. */
  predicate Exclusive(f: Flags) { !(f.liked && f.disliked) }

  /**
   * A request body's flag keys: `None` when the key `is_liked` (and so on) is absent from the
   * body, `Some(v)` when it is present with the boolean `v`.
   */
  datatype FlagPatch = FlagPatch(liked: Option<bool>, disliked: Option<bool>, hearted: Option<bool>, bookmarked: Option<bool>)

  const EmptyPatch: FlagPatch := FlagPatch(None, None, None, None)

  /** Overwrite exactly the flags whose keys the body carries. */
  function Apply(f: Flags, p: FlagPatch): Flags {
    Flags(p.liked.GetOr(f.liked), p.disliked.GetOr(f.disliked), p.hearted.GetOr(f.hearted), p.bookmarked.GetOr(f.bookmarked))
  }

  /** Applying a body twice is applying it once: the upsert can be retried. */
  lemma ApplyIdempotent(f: Flags, p: FlagPatch)
    ensures Apply(Apply(f, p), p) == Apply(f, p)
  {
  }

  /**
   * A flag changes exactly when its key is present and carries the other value; a present key
   * leaves its flag equal to the body's value, an absent key leaves it as it was.
   */
  lemma ApplyChangesOnlyPresentKeys(f: Flags, p: FlagPatch)
    ensures Apply(f, p).liked != f.liked <==> p.liked == Some(!f.liked)
    ensures Apply(f, p).disliked != f.disliked <==> p.disliked == Some(!f.disliked)
    ensures Apply(f, p).hearted != f.hearted <==> p.hearted == Some(!f.hearted)
    ensures Apply(f, p).bookmarked != f.bookmarked <==> p.bookmarked == Some(!f.bookmarked)
    ensures p.liked.Some? ==> Apply(f, p).liked == p.liked.value
    ensures p.disliked.Some? ==> Apply(f, p).disliked == p.disliked.value
    ensures p.hearted.Some? ==> Apply(f, p).hearted == p.hearted.value
    ensures p.bookmarked.Some? ==> Apply(f, p).bookmarked == p.bookmarked.value
    ensures Apply(f, EmptyPatch) == f
  {
  }
}
