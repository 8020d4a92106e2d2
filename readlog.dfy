/**
 * The read log: the last-read card records kept in a fixed array of 100
 * entries with a fill index. Once the array is full, further reads are not
 * recorded; nothing is ever overwritten or evicted.
 */
module ReadLog {
  import opened Words

  /** MAX_CARDS. */
  const MaxCards: nat := 100

  /** One logged read (the `CardData` record). */
  datatype CardData = CardData(
    bitCount: UInt32,
    facilityCode: UInt32,
    cardNumber: UInt32,
    hexCardData: string,
    rawCardData: string,
    status: string,
    details: string)

  const BlankRecord: CardData := CardData(0, 0, 0, "", "", "", "")

  /** The log after offering one record: appended while there is room, else unchanged. */
  function Logged(entries: seq<CardData>, d: CardData): seq<CardData>
  {
    if |entries| < MaxCards then entries + [d] else entries
  }

  /** The log after offering each record of `records` in turn. */
  function LoggedAll(entries: seq<CardData>, records: seq<CardData>): seq<CardData>
  {
    if records == [] then entries else Logged(LoggedAll(entries, records[..|records| - 1]), records[|records| - 1])
  }

  /**
   * Starting from an empty log, the log holds exactly the first 100 records
   * offered, in order: a full log keeps the oldest reads and drops the
   * newest.
   */
  lemma {:induction false} LogKeepsOldest(records: seq<CardData>)
    ensures LoggedAll([], records) == records[..Min(|records|, MaxCards)]
  {
    if records != [] {
      var init := records[..|records| - 1];
      LogKeepsOldest(init);
      if |init| < MaxCards {
        assert init[..Min(|init|, MaxCards)] + [records[|records| - 1]] == records[..Min(|records|, MaxCards)];
      } else {
        assert init[..MaxCards] == records[..MaxCards];
      }
    }
  }

  /** `cardDataArray[MAX_CARDS]` and `cardDataIndex`. */
  class CardLog {
    const cardDataArray: array<CardData>
    var cardDataIndex: int

    ghost predicate Valid()
      reads this
    {
      cardDataArray.Length == MaxCards && 0 <= cardDataIndex <= MaxCards
    }

    /** The records stored so far, oldest first. */
    function Entries(): seq<CardData>
      reads this, cardDataArray
      requires Valid()
    {
      cardDataArray[..cardDataIndex]
    }

    constructor ()
      ensures Valid() && cardDataIndex == 0 && fresh(cardDataArray)
    {
      cardDataArray := new CardData[MaxCards](i => BlankRecord);
      cardDataIndex := 0;
    }

    /**
     * The "store card data" step of printCardData: slot cardDataIndex is
     * written and the index advanced only while it is below 100; earlier
     * entries are untouched.
     */
    method Store(d: CardData) returns (stored: bool)
      requires Valid()
      modifies this, cardDataArray
      ensures Valid()
      ensures stored <==> old(cardDataIndex) < MaxCards
      ensures stored ==> cardDataIndex == old(cardDataIndex) + 1 && cardDataArray[..] == old(cardDataArray[..])[old(cardDataIndex) := d]
      ensures !stored ==> cardDataIndex == old(cardDataIndex) && cardDataArray[..] == old(cardDataArray[..])
      ensures Entries() == Logged(old(Entries()), d)
    {
      stored := false;
      if cardDataIndex < MaxCards {
        cardDataArray[cardDataIndex] := d;
        cardDataIndex := cardDataIndex + 1;
        stored := true;
      }
    }
  }
}
