/**
 * The browser-side pseudonymous identity: one string kept in local storage under the key
 * `bookbyte_user_id`, created on first use and replaceable by an explicit import.
 */
module UserIdentity {
  import opened Wrappers
  import opened Text

  /** The local-storage key that holds the identifier. */
  const UserIdKey: string := "bookbyte_user_id"

  /** Positions of the four hyphens in the 8-4-4-4-12 textual form of a UUID. */
  predicate IsHyphenPosition(k: int) { k == 8 || k == 13 || k == 18 || k == 23 }

  /**
   * `isValidUUID`: the whole string is 8-4-4-4-12 hexadecimal digits of either case separated
   * by hyphens (the textual form of section 3 of RFC 4122). Version and variant nibbles are
   * not checked and nothing is trimmed.
   */
  predicate IsValidUuid(s: string) {
    |s| == 36 && forall k | 0 <= k < 36 :: if IsHyphenPosition(k) then s[k] == '-' else IsHexDigit(s[k])
  }

  predicate IsHexGroup(g: string, n: nat) { |g| == n && forall k | 0 <= k < n :: IsHexDigit(g[k]) }

  /** The five hexadecimal groups joined by hyphens: the reference reading of the UUID form. */
  function JoinGroups(a: string, b: string, c: string, d: string, e: string): string {
    a + "-" + b + "-" + c + "-" + d + "-" + e
  }

  /** Any five hexadecimal groups of lengths 8, 4, 4, 4 and 12, joined by hyphens, pass `isValidUUID`. */
  lemma JoinedGroupsAreValid(a: string, b: string, c: string, d: string, e: string)
    requires IsHexGroup(a, 8) && IsHexGroup(b, 4) && IsHexGroup(c, 4) && IsHexGroup(d, 4) && IsHexGroup(e, 12)
    ensures IsValidUuid(JoinGroups(a, b, c, d, e))
  {
    var s := JoinGroups(a, b, c, d, e);
    assert |s| == 36;
    forall k | 0 <= k < 36
      ensures if IsHyphenPosition(k) then s[k] == '-' else IsHexDigit(s[k])
    {
      if k < 8 { assert s[k] == a[k]; }
      else if k == 8 { assert s[k] == '-'; }
      else if k < 13 { assert s[k] == b[k - 9]; }
      else if k == 13 { assert s[k] == '-'; }
      else if k < 18 { assert s[k] == c[k - 14]; }
      else if k == 18 { assert s[k] == '-'; }
      else if k < 23 { assert s[k] == d[k - 19]; }
      else if k == 23 { assert s[k] == '-'; }
      else { assert s[k] == e[k - 24]; }
    }
  }

  /** Conversely, every string that passes `isValidUUID` is five such groups joined by hyphens. */
  lemma ValidIsJoinedGroups(s: string)
    requires IsValidUuid(s)
    ensures IsHexGroup(s[0..8], 8) && IsHexGroup(s[9..13], 4) && IsHexGroup(s[14..18], 4)
    ensures IsHexGroup(s[19..23], 4) && IsHexGroup(s[24..36], 12)
    ensures s == JoinGroups(s[0..8], s[9..13], s[14..18], s[19..23], s[24..36])
  {
    assert forall k | 0 <= k < 8 :: s[0..8][k] == s[k] && !IsHyphenPosition(k);
    assert forall k | 0 <= k < 4 :: s[9..13][k] == s[9 + k] && !IsHyphenPosition(9 + k);
    assert forall k | 0 <= k < 4 :: s[14..18][k] == s[14 + k] && !IsHyphenPosition(14 + k);
    assert forall k | 0 <= k < 4 :: s[19..23][k] == s[19 + k] && !IsHyphenPosition(19 + k);
    assert forall k | 0 <= k < 12 :: s[24..36][k] == s[24 + k] && !IsHyphenPosition(24 + k);
    var j := JoinGroups(s[0..8], s[9..13], s[14..18], s[19..23], s[24..36]);
    assert IsHyphenPosition(8) && IsHyphenPosition(13) && IsHyphenPosition(18) && IsHyphenPosition(23);
    assert s[8] == '-' && s[13] == '-' && s[18] == '-' && s[23] == '-';
    assert s == s[0..8] + [s[8]] + s[9..13] + [s[13]] + s[14..18] + [s[18]] + s[19..23] + [s[23]] + s[24..36];
  }

  /** A valid identifier has no white space at either end, so `trim()` leaves it unchanged. */
  lemma ValidUuidIsTrimmed(s: string)
    requires IsValidUuid(s)
    ensures Trim(s) == s && s != ""
  {
    assert !IsHyphenPosition(0) && !IsHyphenPosition(35);
    assert IsHexDigit(s[0]) && IsHexDigit(s[|s| - 1]);
    assert IsTrimmed(s);
  }

  /** `isValidUUID` does not trim: surrounding white space makes it false. */
  lemma PaddedUuidIsInvalid(s: string, pad: string)
    requires pad != [] && AllSpace(pad)
    ensures !IsValidUuid(pad + s) && !IsValidUuid(s + pad)
  {
    assert (pad + s)[0] == pad[0];
    assert (s + pad)[|s + pad| - 1] == pad[|pad| - 1];
    assert !IsHyphenPosition(0) && !IsHyphenPosition(35);
  }

  /** Why an import was refused, with the message the source throws. */
  datatype ImportError = EmptyInput | InvalidFormat {
    function Message(): string {
      match this
      case EmptyInput => "User ID must be a non-empty string"
      case InvalidFormat => "Invalid UUID format. Expected format: xxxxxxxx-xxxx-xxxx-xxxx-xxxxxxxxxxxx"
    }
  }

  /** The one-key store. `stored` is the value under `UserIdKey`; `None` when the key is absent. */
  class IdentityStore {
    var stored: Option<string>

    constructor (initial: Option<string>)
      ensures stored == initial
    {
      stored := initial;
    }

    /**
     * `getUserId`: the stored identifier when it is non-empty; otherwise `generated`, the value
     * `crypto.randomUUID()` produced, which is stored first. Afterwards the store holds the result.
     */
    method GetUserId(generated: string) returns (id: string)
      requires IsValidUuid(generated)
      modifies this
      ensures id != ""
      ensures stored == Some(id)
      ensures old(stored).Some? && old(stored).value != "" ==> id == old(stored).value
      ensures old(stored).None? || old(stored) == Some("") ==> id == generated
    {
      if stored.None? || stored.value == "" {
        id := generated;
        stored := Some(id);
      } else {
        id := stored.value;
      }
    }

    /** `exportUserId`: exactly `getUserId`, with the same effect on the store. */
    method ExportUserId(generated: string) returns (id: string)
      requires IsValidUuid(generated)
      modifies this
      ensures id != ""
      ensures stored == Some(id)
      ensures old(stored).Some? && old(stored).value != "" ==> id == old(stored).value
      ensures old(stored).None? || old(stored) == Some("") ==> id == generated
    {
      id := GetUserId(generated);
    }

    /**
     * `importUserId`: refuses the empty string, then refuses anything whose trimmed form is not
     * a valid UUID; a refusal leaves the store untouched. On success the trimmed input is stored.
     */
    method ImportUserId(userId: string) returns (r: Outcome<ImportError>)
      modifies this
      ensures r == Pass <==> userId != "" && IsValidUuid(Trim(userId))
      ensures r == Fail(EmptyInput) <==> userId == ""
      ensures r == Pass ==> stored == Some(Trim(userId))
      ensures r.Fail? ==> stored == old(stored)
    {
      if userId == "" {
        return Fail(EmptyInput);
      }
      var trimmed := Trim(userId);
      if !IsValidUuid(trimmed) {
        return Fail(InvalidFormat);
      }
      stored := Some(trimmed);
      r := Pass;
    }

    /** `hasUserId`: the key is present, even when it holds the empty string. */
    method HasUserId() returns (b: bool)
      ensures b <==> stored.Some?
    {
      b := stored.Some?;
    }

    /** `clearUserId`: removes the key. */
    method ClearUserId()
      modifies this
      ensures stored == None
    {
      stored := None;
    }
  }

  /** A second `getUserId` returns what the first returned, whatever the generator offers. */
  method GetUserIdIsStable(store: IdentityStore, g1: string, g2: string) returns (first: string, second: string)
    requires IsValidUuid(g1) && IsValidUuid(g2)
    modifies store
    ensures first == second
  {
    first := store.GetUserId(g1);
    second := store.GetUserId(g2);
  }

  /** After a successful import, `getUserId` returns exactly the trimmed input. */
  method ImportThenGet(store: IdentityStore, candidate: string, g: string) returns (r: Outcome<ImportError>, id: string)
    requires IsValidUuid(g)
    modifies store
    ensures r == Pass ==> id == Trim(candidate)
    ensures r.Fail? ==> old(store.stored).Some? && old(store.stored).value != "" ==> id == old(store.stored).value
  {
    r := store.ImportUserId(candidate);
    if r == Pass {
      ValidUuidIsTrimmed(Trim(candidate));
    }
    id := store.GetUserId(g);
  }

  /** After `clearUserId` the key is absent and the next `getUserId` returns the generated id. */
  method ClearThenGet(store: IdentityStore, g: string) returns (present: bool, id: string)
    requires IsValidUuid(g)
    modifies store
    ensures !present && id == g
  {
    store.ClearUserId();
    present := store.HasUserId();
    id := store.GetUserId(g);
  }

  /** The two concrete cases: an RFC 4122 example is accepted, a non-UUID word is refused. */
  lemma ExampleIdentifiers()
    ensures IsValidUuid("123e4567-e89b-12d3-a456-426614174000")
    ensures !IsValidUuid("not-a-uuid")
  {
  }
}
