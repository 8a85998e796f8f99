/**
 * The store-and-validator version of the registry: `MemoryItemStore` is the
 * one implementation of the `ItemStore` interface, `Validator` checks links,
 * and the main loop dispatches on the trimmed menu line itself.
 */
module StockAnswer1 {
  import opened JavaTypes
  import opened Strings
  import opened Links
  import opened Menu
  import Storage

  /** A purchase request, as the main loop builds it from the prompted fields. */
  datatype Item1 = Item1(applicant: string, name: string, quantity: Int32, price: Int64, link: string)

  /** `Validator.isValidLink`: lower-case scheme, shop name in any case. */
  function IsValidLink(link: string): (r: LinkCheck)
    ensures r == WrongScheme <==> !HasWebScheme(link)
    ensures r == Accepted <==> HasWebScheme(link) && NamesShop(LowerAscii(link))
  {
    Validate(link, true)
  }

  /** Keeps items in arrival order in an array whose length is the capacity. */
  class MemoryItemStore {
    const items: array<Item1>
    var count: nat

    ghost predicate Valid()
      reads this
    {
      count <= items.Length
    }

    /** The stored items, oldest first. */
    ghost function Contents(): seq<Item1>
      reads this, items
      requires Valid()
    {
      items[..count]
    }

    function Capacity(): nat {
      items.Length
    }

    constructor (capacity: Int32)
      requires capacity >= 0
      ensures Valid() && fresh(items)
      ensures Capacity() == capacity as nat && Contents() == []
    {
      items := new Item1[capacity];
      count := 0;
    }

    /** Appends `item` when there is room; otherwise reports failure and changes nothing. */
    method Save(item: Item1) returns (ok: bool)
      requires Valid()
      modifies this, items
      ensures Valid()
      ensures ok <==> old(count) < Capacity()
      ensures Contents() == Storage.Offer(old(Contents()), Capacity(), item)
      ensures ok ==> items[old(count)] == item && count == old(count) + 1
      ensures forall k :: 0 <= k < items.Length && k != old(count) ==> items[k] == old(items[k])
      ensures !ok ==> count == old(count) && items[..] == old(items[..])
    {
      if count >= items.Length {
        return false;
      }
      items[count] := item;
      count := count + 1;
      return true;
    }

    /** A fresh array holding the stored items in order. */
    method FindAll() returns (result: array<Item1>)
      requires Valid()
      ensures fresh(result) && result[..] == Contents()
    {
      result := Storage.CopyPrefix(items, count);
    }

    method IsFull() returns (full: bool)
      requires Valid()
      ensures full <==> |Contents()| == Capacity()
    {
      full := count >= items.Length;
    }
  }

  /**
   * One pass of the main loop. The prompted fields are parameters:
   * `applicant`, `name` and `link` stand for the lines as read and then
   * trimmed, `quantity` and `price` for the parsed numbers, and `link` is the
   * first link the re-prompt loop accepted. On a full store the "1" branch
   * stops before any prompt and saves nothing.
   */
  method MenuStep(store: MemoryItemStore, line: string,
                  applicant: string, name: string, quantity: Int32, price: Int64, link: string)
    returns (outcome: Outcome<Item1>)
    requires store.Valid()
    requires IsValidLink(link) == Accepted
    modifies store, store.items
    ensures store.Valid()
    ensures outcome != RegistrationFailed
    ensures Dispatch(line) == Register && old(|store.Contents()|) < store.Capacity() ==>
              outcome == Registered
              && store.Contents() == old(store.Contents()) + [Item1(applicant, name, quantity, price, link)]
    ensures Dispatch(line) == Register && old(|store.Contents()|) >= store.Capacity() ==>
              outcome == StoreFull && unchanged(store, store.items)
    ensures Dispatch(line) == View ==>
              outcome == if old(store.Contents()) == [] then NothingRegistered else Listed(old(store.Contents()))
    ensures Dispatch(line) == Quit ==> outcome == Exiting
    ensures Dispatch(line) == Unknown ==> outcome == InvalidInput
    ensures Dispatch(line) != Register ==> unchanged(store, store.items)
  {
    match Dispatch(line)
    case Register =>
      var full := store.IsFull();
      if full {
        return StoreFull;
      }
      var ok := store.Save(Item1(applicant, name, quantity, price, link));
      outcome := if ok then Registered else RegistrationFailed;
    case View =>
      var all := store.FindAll();
      if all.Length == 0 {
        outcome := NothingRegistered;
      } else {
        outcome := Listed(all[..]);
      }
    case Quit =>
      outcome := Exiting;
    case Unknown =>
      outcome := InvalidInput;
  }
}
