/**
 * The first, flat version of the registry: a `Store` with room for exactly
 * five items, and a `Checker` whose shop test is case-sensitive.
 */
module Stock {
  import opened JavaTypes
  import opened Strings
  import opened Links
  import Storage
  import StockAnswer

  /** A purchase request; here both numbers are `Integer`. */
  datatype Item = Item(name: string, item: string, quantity: Int32, price: Int32, link: string)

  /** The store's fixed size. */
  const Capacity: nat := 5

  /** `Checker.check`: lower-case scheme, and the shop name exactly as typed. */
  function Check(link: string): (r: LinkCheck)
    ensures r == WrongScheme <==> !HasWebScheme(link)
    ensures r == Accepted <==> HasWebScheme(link) && NamesShop(link)
  {
    Validate(link, false)
  }

  /**
   * Every link `Checker.check` accepts, `InputValidator.isValidLink` accepts:
   * lower-casing cannot destroy an occurrence of a lower-case shop name.
   */
  lemma CheckAcceptedIsValidLink(link: string)
    ensures Check(link) == Accepted ==> StockAnswer.IsValidLink(link) == Accepted
  {
    if Check(link) == Accepted {
      assert LowerAscii(ElevenStreet) == ElevenStreet;
      assert LowerAscii(Coupang) == Coupang;
      if Occurs(ElevenStreet, link) {
        OccursLowered(ElevenStreet, link);
      } else {
        OccursLowered(Coupang, link);
      }
    }
  }

  /** The converse fails: an upper-case shop name passes only `isValidLink`. */
  lemma IsValidLinkAcceptsMore()
    ensures StockAnswer.IsValidLink("http://COUPANG.COM") == Accepted
    ensures Check("http://COUPANG.COM") == WrongDomain
  {
    var link := "http://COUPANG.COM";
    assert IsPrefix(HttpScheme, link);
    assert OccursAt(Coupang, LowerAscii(link), 7);
    MissingCharRulesOut(Coupang, link, 0);
    MissingCharRulesOut(ElevenStreet, link, 0);
  }

  /** Holds up to `Capacity` items in arrival order. */
  class Store {
    const items: array<Item>
    var size: nat

    ghost predicate Valid()
      reads this
    {
      items.Length == Capacity && size <= Capacity
    }

    /** The stored items, oldest first. */
    ghost function Contents(): seq<Item>
      reads this, items
      requires Valid()
    {
      items[..size]
    }

    constructor ()
      ensures Valid() && fresh(items) && Contents() == []
    {
      items := new Item[Capacity];
      size := 0;
    }

    /** Appends `item` when there is room; on a full store nothing changes. */
    method SaveItem(item: Item)
      requires Valid()
      modifies this, items
      ensures Valid()
      ensures Contents() == Storage.Offer(old(Contents()), Capacity, item)
      ensures old(size) < Capacity ==> items[old(size)] == item && size == old(size) + 1
      ensures forall k :: 0 <= k < items.Length && k != old(size) ==> items[k] == old(items[k])
      ensures old(size) >= Capacity ==> size == old(size) && items[..] == old(items[..])
    {
      if size < Capacity {
        items[size] := item;
        size := size + 1;
      }
    }

    /** A fresh array holding the stored items in order. */
    method GetItem() returns (temp: array<Item>)
      requires Valid()
      ensures fresh(temp) && temp[..] == Contents()
    {
      temp := Storage.CopyPrefix(items, size);
    }

    method GetSize() returns (n: nat)
      requires Valid()
      ensures n == |Contents()| && n <= Capacity
    {
      n := size;
    }
  }
}
