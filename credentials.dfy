/**
 * The credential list: up to 100 (facility code, card number, name)
 * records held in a fixed array with a count of valid entries. Cards are
 * looked up by a linear first-match search over 16-bit arguments, added at
 * the end while there is room, and deleted by shifting later entries down.
 */
module Credentials {
  import opened Words
  import opened Optional

  /** MAX_CREDENTIALS. */
  const MaxCredentials: nat := 100
  /** `char name[50]`: at most 49 characters and the terminating NUL. */
  const NameCapacity: nat := 50
  const Nul: char := 0 as char

  type UInt16 = x: int | 0 <= x < 0x1_0000
  /** `long`, the result of `String::toInt` on this target. */
  type Int32 = x: int | -0x8000_0000 <= x < 0x8000_0000

  /** A stored credential; `name` is the C string held in `char name[50]`. */
  datatype Credential = Credential(facilityCode: UInt32, cardNumber: UInt32, name: string)

  /** What a fresh (zero-initialised) array slot holds. */
  const Blank: Credential := Credential(0, 0, "")

  /** Conversion of a 32-bit unsigned value to `uint16_t`: the high bits are dropped. */
  function ToUInt16(x: UInt32): (r: UInt16)
    ensures exists q :: 0 <= q < 0x1_0000 && x == q * 0x1_0000 + r
  {
    var q := x / 0x1_0000;
    assert x == q * 0x1_0000 + x % 0x1_0000;
    x % 0x1_0000
  }

  /** Assignment of a `long` to an `unsigned long`: negative values wrap to 2^32 + x. */
  function ToUInt32(x: Int32): (r: UInt32)
    ensures x >= 0 ==> r == x
    ensures x < 0 ==> r == Modulus + x
  {
    x % Modulus
  }

  /**
   * strncpy(name, s, 49) followed by name[49] = NUL: the C string stored is
   * `s` up to its first NUL character, and at most 49 characters of it.
   */
  function StoredName(s: string): (r: string)
    ensures |r| <= NameCapacity - 1 && r <= s
    ensures forall i :: 0 <= i < |r| ==> r[i] != Nul
    ensures |r| == |s| || |r| == NameCapacity - 1 || s[|r|] == Nul
  {
    CopyUpTo(s, NameCapacity - 1)
  }

  /** The first at most `limit` characters of `s` before its first NUL. */
  function CopyUpTo(s: string, limit: nat): (r: string)
    ensures |r| <= limit && r <= s
    ensures forall i :: 0 <= i < |r| ==> r[i] != Nul
    ensures |r| == |s| || |r| == limit || s[|r|] == Nul
  {
    if s == [] || limit == 0 || s[0] == Nul then []
    else [s[0]] + CopyUpTo(s[1..], limit - 1)
  }

  predicate Matches(c: Credential, fc: UInt16, cn: UInt16)
  {
    c.facilityCode == fc && c.cardNumber == cn
  }

  /**
   * The index of the first entry whose facility code and card number equal
   * the arguments, or None when there is none.
   */
  function FirstMatch(entries: seq<Credential>, fc: UInt16, cn: UInt16): (r: Option<nat>)
    ensures r.Some? ==> r.value < |entries| && Matches(entries[r.value], fc, cn)
    ensures r.Some? ==> forall j :: 0 <= j < r.value ==> !Matches(entries[j], fc, cn)
    ensures r.None? <==> forall j :: 0 <= j < |entries| ==> !Matches(entries[j], fc, cn)
  {
    if entries == [] then None
    else if Matches(entries[0], fc, cn) then Some(0)
    else match FirstMatch(entries[1..], fc, cn)
      case None => None
      case Some(i) => Some(i + 1)
  }

  /** The list with entry `index` removed. */
  function Remove(entries: seq<Credential>, index: nat): (r: seq<Credential>)
    requires index < |entries|
    ensures |r| == |entries| - 1
    ensures forall j :: 0 <= j < index ==> r[j] == entries[j]
    ensures forall j :: index <= j < |r| ==> r[j] == entries[j + 1]
  {
    entries[..index] + entries[index + 1..]
  }

  /** Outcome of the /addCard handler. */
  datatype AddOutcome = Added | MissingParameters | StoreFull

  /** Outcome of the /deleteCard handler. */
  datatype DeleteOutcome = Deleted | MissingIndex | InvalidIndex

  /** `credentials[MAX_CREDENTIALS]` and `validCount`. */
  class CredentialStore {
    const credentials: array<Credential>
    var validCount: int

    ghost predicate Valid()
      reads this
    {
      credentials.Length == MaxCredentials && 0 <= validCount <= MaxCredentials
    }

    /** The valid entries, in order. */
    function Contents(): seq<Credential>
      reads this, credentials
      requires Valid()
    {
      credentials[..validCount]
    }

    constructor ()
      ensures Valid() && validCount == 0 && fresh(credentials)
    {
      credentials := new Credential[MaxCredentials](i => Blank);
      validCount := 0;
    }

    /** checkCredential: the first valid entry matching both 16-bit arguments. */
    method CheckCredential(fc: UInt16, cn: UInt16) returns (r: Option<nat>)
      requires Valid()
      ensures r == FirstMatch(Contents(), fc, cn)
    {
      var i := 0;
      while i < validCount
        invariant 0 <= i <= validCount
        invariant forall j :: 0 <= j < i ==> !Matches(credentials[j], fc, cn)
      {
        if credentials[i].facilityCode == fc && credentials[i].cardNumber == cn {
          FirstMatchAt(Contents(), i, fc, cn);
          return Some(i);
        }
        i := i + 1;
      }
      return None;
    }

    /**
     * The array logic of /addCard: with room left and all three parameters
     * present, the card is written at index validCount (numbers converted
     * to 32-bit unsigned, name cut to 49 characters) and counted.
     */
    method AddCard(facilityCode: Option<Int32>, cardNumber: Option<Int32>, name: Option<string>) returns (outcome: AddOutcome)
      requires Valid()
      modifies this, credentials
      ensures Valid()
      ensures old(validCount) >= MaxCredentials ==> outcome == StoreFull
      ensures old(validCount) < MaxCredentials && (facilityCode.None? || cardNumber.None? || name.None?) ==> outcome == MissingParameters
      ensures outcome != Added ==> validCount == old(validCount) && credentials[..] == old(credentials[..])
      ensures outcome == Added <==> old(validCount) < MaxCredentials && facilityCode.Some? && cardNumber.Some? && name.Some?
      ensures outcome == Added ==>
        var entry := Credential(ToUInt32(facilityCode.value), ToUInt32(cardNumber.value), StoredName(name.value));
        && validCount == old(validCount) + 1
        && credentials[..] == old(credentials[..])[old(validCount) := entry]
        && Contents() == old(Contents()) + [entry]
    {
      if validCount < MaxCredentials {
        if facilityCode.Some? && cardNumber.Some? && name.Some? {
          credentials[validCount] := Credential(ToUInt32(facilityCode.value), ToUInt32(cardNumber.value), StoredName(name.value));
          validCount := validCount + 1;
          outcome := Added;
        } else {
          outcome := MissingParameters;
        }
      } else {
        outcome := StoreFull;
      }
    }

    /**
     * The array logic of /deleteCard: a valid index has every later entry
     * copied one place down and the count decremented; the slot at the old
     * last index keeps its (now duplicated) entry. Any other index changes
     * nothing.
     */
    method DeleteCard(index: Option<Int32>) returns (outcome: DeleteOutcome)
      requires Valid()
      modifies this, credentials
      ensures Valid()
      ensures index.None? ==> outcome == MissingIndex
      ensures index.Some? ==> (outcome == Deleted <==> 0 <= index.value < old(validCount))
      ensures outcome != Deleted ==> validCount == old(validCount) && credentials[..] == old(credentials[..])
      ensures outcome == Deleted ==>
        && validCount == old(validCount) - 1
        && (forall j :: 0 <= j < index.value ==> credentials[j] == old(credentials[j]))
        && (forall j :: index.value <= j < validCount ==> credentials[j] == old(credentials[j + 1]))
        && (forall j :: validCount <= j < MaxCredentials ==> credentials[j] == old(credentials[j]))
        && Contents() == Remove(old(Contents()), index.value)
    {
      if index.None? {
        return MissingIndex;
      }
      var k := index.value;
      if !(0 <= k < validCount) {
        return InvalidIndex;
      }
      var n := validCount;
      ghost var before := credentials[..];
      var i := k;
      while i < validCount - 1
        invariant k <= i <= n - 1 && validCount == n
        invariant forall j :: 0 <= j < k ==> credentials[j] == before[j]
        invariant forall j :: k <= j < i ==> credentials[j] == before[j + 1]
        invariant forall j :: i <= j < MaxCredentials ==> credentials[j] == before[j]
      {
        credentials[i] := credentials[i + 1];
        i := i + 1;
      }
      validCount := validCount - 1;
      outcome := Deleted;
      ghost var removed := Remove(before[..n], k);
      forall j | 0 <= j < n - 1
        ensures credentials[j] == removed[j]
      {
      }
      assert Contents() == removed;
    }
  }

  /** Looking at the first i entries and then the rest finds the same first match. */
  lemma {:induction false} FirstMatchSplit(entries: seq<Credential>, i: nat, fc: UInt16, cn: UInt16)
    requires i <= |entries|
    ensures FirstMatch(entries, fc, cn) == (
      if FirstMatch(entries[..i], fc, cn).Some? then FirstMatch(entries[..i], fc, cn)
      else match FirstMatch(entries[i..], fc, cn)
        case None => None
        case Some(k) => Some(i + k))
  {
    if i > 0 {
      assert entries[1..][..i - 1] == entries[..i][1..];
      assert entries[1..][i - 1..] == entries[i..];
      FirstMatchSplit(entries[1..], i - 1, fc, cn);
    }
  }

  /** An entry that matches, with none before it, is the first match. */
  lemma {:induction false} FirstMatchAt(entries: seq<Credential>, i: nat, fc: UInt16, cn: UInt16)
    requires i < |entries| && Matches(entries[i], fc, cn)
    requires forall j :: 0 <= j < i ==> !Matches(entries[j], fc, cn)
    ensures FirstMatch(entries, fc, cn) == Some(i)
  {
  }

  /**
   * After adding a card whose numbers fit in 16 bits, looking it up finds
   * an entry: the new one, or an earlier entry with the same numbers.
   */
  lemma {:induction false} AddedCardIsFound(entries: seq<Credential>, c: Credential)
    requires c.facilityCode < 0x1_0000 && c.cardNumber < 0x1_0000
    ensures var r := FirstMatch(entries + [c], c.facilityCode, c.cardNumber);
      r.Some? && r.value <= |entries|
      && (r.value < |entries| <==> FirstMatch(entries, c.facilityCode, c.cardNumber).Some?)
  {
    var r := FirstMatch(entries + [c], c.facilityCode, c.cardNumber);
    assert (entries + [c])[|entries|] == c;
    if r.value < |entries| {
      assert (entries + [c])[r.value] == entries[r.value];
    }
    var q := FirstMatch(entries, c.facilityCode, c.cardNumber);
    if q.Some? {
      assert (entries + [c])[q.value] == entries[q.value];
    }
  }

  /**
   * A stored number of 65536 or more can never match: checkCredential
   * compares it with a 16-bit argument. Such a credential is never found.
   */
  lemma {:induction false} WideCredentialNeverMatches(entries: seq<Credential>, i: nat, fc: UInt32, cn: UInt32)
    requires i < |entries| && (entries[i].facilityCode >= 0x1_0000 || entries[i].cardNumber >= 0x1_0000)
    ensures FirstMatch(entries, ToUInt16(fc), ToUInt16(cn)) != Some(i)
  {
  }

  /**
   * Decoded numbers that agree in their low 16 bits are looked up alike:
   * a card whose 32-bit card number is 65537 is granted by the credential
   * for card number 1.
   */
  lemma {:induction false} TruncatedLookupAliases(entries: seq<Credential>, fc: UInt32, cn: UInt32)
    requires cn + 0x1_0000 < Modulus
    ensures FirstMatch(entries, ToUInt16(fc), ToUInt16(cn + 0x1_0000)) == FirstMatch(entries, ToUInt16(fc), ToUInt16(cn))
  {
    assert ToUInt16(cn + 0x1_0000) == ToUInt16(cn);
  }

  /** Deleting after the first match does not move it. */
  lemma {:induction false} DeleteAfterMatch(entries: seq<Credential>, index: nat, fc: UInt16, cn: UInt16)
    requires index < |entries|
    requires FirstMatch(entries, fc, cn).Some? && FirstMatch(entries, fc, cn).value < index
    ensures FirstMatch(Remove(entries, index), fc, cn) == FirstMatch(entries, fc, cn)
  {
    FirstMatchAt(Remove(entries, index), FirstMatch(entries, fc, cn).value, fc, cn);
  }

  /** Deleting before the first match moves it down by one. */
  lemma {:induction false} DeleteBeforeMatch(entries: seq<Credential>, index: nat, fc: UInt16, cn: UInt16)
    requires index < |entries|
    requires FirstMatch(entries, fc, cn).Some? && FirstMatch(entries, fc, cn).value > index
    ensures FirstMatch(Remove(entries, index), fc, cn) == Some(FirstMatch(entries, fc, cn).value - 1)
  {
    var rest := Remove(entries, index);
    var b := FirstMatch(entries, fc, cn).value;
    forall j | 0 <= j < b - 1
      ensures !Matches(rest[j], fc, cn)
    {
      if j >= index {
        assert rest[j] == entries[j + 1];
      }
    }
    FirstMatchAt(rest, b - 1, fc, cn);
  }

  /** Deleting from a list without a match leaves a list without a match. */
  lemma {:induction false} DeleteWithoutMatch(entries: seq<Credential>, index: nat, fc: UInt16, cn: UInt16)
    requires index < |entries| && FirstMatch(entries, fc, cn).None?
    ensures FirstMatch(Remove(entries, index), fc, cn).None?
  {
    var rest := Remove(entries, index);
    forall j | 0 <= j < |rest|
      ensures !Matches(rest[j], fc, cn)
    {
      if j >= index {
        assert rest[j] == entries[j + 1];
      }
    }
  }

  /** Deleting the first match: the lookup now finds the next match after it, if any. */
  lemma {:induction false} DeleteTheMatch(entries: seq<Credential>, index: nat, fc: UInt16, cn: UInt16)
    requires index < |entries| && FirstMatch(entries, fc, cn) == Some(index)
    ensures FirstMatch(Remove(entries, index), fc, cn) == (match FirstMatch(entries[index + 1..], fc, cn)
      case None => None
      case Some(k) => Some(index + k))
  {
    var rest := Remove(entries, index);
    var tail := entries[index + 1..];
    match FirstMatch(tail, fc, cn)
    case None =>
      forall j | 0 <= j < |rest|
        ensures !Matches(rest[j], fc, cn)
      {
        if j >= index {
          assert rest[j] == tail[j - index];
        }
      }
    case Some(k) =>
      forall j | 0 <= j < index + k
        ensures !Matches(rest[j], fc, cn)
      {
        if j >= index {
          assert rest[j] == tail[j - index];
        }
      }
      assert rest[index + k] == tail[k];
      FirstMatchAt(rest, index + k, fc, cn);
  }

  /**
   * Deleting entry `index` keeps the outcome of every lookup, up to the
   * renumbering: a first match before `index` stays where it was, one after
   * it moves down by one, a lookup that found nothing still finds nothing,
   * and a lookup that found entry `index` now finds the next match after
   * it, if any.
   */
  lemma {:induction false} DeleteShiftsLookup(entries: seq<Credential>, index: nat, fc: UInt16, cn: UInt16)
    requires index < |entries|
    ensures var before := FirstMatch(entries, fc, cn);
      var after := FirstMatch(Remove(entries, index), fc, cn);
      && (before.Some? && before.value < index ==> after == before)
      && (before.Some? && before.value > index ==> after == Some(before.value - 1))
      && (before.None? ==> after.None?)
      && (before == Some(index) ==> after == (match FirstMatch(entries[index + 1..], fc, cn)
            case None => None
            case Some(k) => Some(index + k)))
  {
    var before := FirstMatch(entries, fc, cn);
    if before.None? {
      DeleteWithoutMatch(entries, index, fc, cn);
    } else if before.value < index {
      DeleteAfterMatch(entries, index, fc, cn);
    } else if before.value > index {
      DeleteBeforeMatch(entries, index, fc, cn);
    } else {
      DeleteTheMatch(entries, index, fc, cn);
    }
  }
}
