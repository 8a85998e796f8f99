/**
 * The layered version of the registry: `ItemRepository` owns a fixed-size
 * array, `ItemService` builds items and delegates to it, `InputValidator`
 * checks links, and `ItemController` runs one menu selection at a time.
 */
module StockAnswer {
  import opened JavaTypes
  import opened Strings
  import opened Links
  import opened Menu
  import Storage

  /** A purchase request: who asks, for what, how many, at what price, and where to buy it. */
  datatype Item = Item(applicant: string, name: string, quantity: Int32, price: Int64, link: string)

  /**
   * `InputValidator.isValidLink`: the scheme must be typed in lower case, the
   * shop name may be in any case.
   */
  function IsValidLink(link: string): (r: LinkCheck)
    ensures r == WrongScheme <==> !HasWebScheme(link)
    ensures r == Accepted <==> HasWebScheme(link) && NamesShop(LowerAscii(link))
  {
    Validate(link, true)
  }

  /** An upper-case scheme is refused even though an upper-case shop name is not. */
  lemma UpperCaseSchemeRefused()
    ensures IsValidLink("HTTPS://COUPANG.COM/x") == WrongScheme
  {
    var link := "HTTPS://COUPANG.COM/x";
    assert link[0] != HttpScheme[0];
  }

  /** Stores items in arrival order until its array is full. */
  class ItemRepository {
    const items: array<Item>
    var count: nat

    ghost predicate Valid()
      reads this
    {
      count <= items.Length
    }

    /** The stored items, oldest first. */
    ghost function Contents(): seq<Item>
      reads this, items
      requires Valid()
    {
      items[..count]
    }

    function Capacity(): nat {
      items.Length
    }

    constructor (capacity: Int32)
      requires capacity >= 0
      ensures Valid() && fresh(items)
      ensures Capacity() == capacity as nat && Contents() == []
    {
      items := new Item[capacity];
      count := 0;
    }

    /** Appends `item` when there is room; otherwise reports failure and changes nothing. */
    method Save(item: Item) returns (ok: bool)
      requires Valid()
      modifies this, items
      ensures Valid()
      ensures ok <==> old(count) < Capacity()
      ensures Contents() == Storage.Offer(old(Contents()), Capacity(), item)
      ensures ok ==> items[old(count)] == item && count == old(count) + 1
      ensures forall k :: 0 <= k < items.Length && k != old(count) ==> items[k] == old(items[k])
      ensures !ok ==> count == old(count) && items[..] == old(items[..])
    {
      if count >= items.Length {
        return false;
      }
      items[count] := item;
      count := count + 1;
      return true;
    }

    /** A fresh array holding the stored items in order. */
    method FindAll() returns (result: array<Item>)
      requires Valid()
      ensures fresh(result) && result[..] == Contents()
    {
      result := Storage.CopyPrefix(items, count);
    }

    method IsFull() returns (full: bool)
      requires Valid()
      ensures full <==> |Contents()| == Capacity()
    {
      full := count >= items.Length;
    }
  }

  /** Builds items from the prompted fields and hands them to the repository. */
  class ItemService {
    const repository: ItemRepository

    constructor (repository: ItemRepository)
      ensures this.repository == repository
    {
      this.repository := repository;
    }

    /** Returns exactly what `save` returns for the new item. */
    method RegisterItem(applicant: string, name: string, quantity: Int32, price: Int64, link: string)
      returns (ok: bool)
      requires repository.Valid()
      modifies repository, repository.items
      ensures repository.Valid()
      ensures ok <==> old(|repository.Contents()|) < repository.Capacity()
      ensures repository.Contents()
           == Storage.Offer(old(repository.Contents()), repository.Capacity(), Item(applicant, name, quantity, price, link))
    {
      ok := repository.Save(Item(applicant, name, quantity, price, link));
    }

    method GetAllItems() returns (all: array<Item>)
      requires repository.Valid()
      ensures fresh(all) && all[..] == repository.Contents()
    {
      all := repository.FindAll();
    }

    method IsFull() returns (full: bool)
      requires repository.Valid()
      ensures full <==> |repository.Contents()| == repository.Capacity()
    {
      full := repository.IsFull();
    }
  }

  /**
   * The menu loop, one selection at a time. The prompted fields are
   * parameters: `applicant`, `name` and `link` stand for the lines as read
   * and then trimmed, `quantity` and `price` for the parsed numbers, and
   * `link` is the first link the re-prompt loop accepted.
   */
  class ItemController {
    const service: ItemService

    /** The stored requests, oldest first. */
    ghost function Requests(): seq<Item>
      reads this, service, service.repository, service.repository.items
      requires service.repository.Valid()
    {
      service.repository.Contents()
    }

    /** Every stored request went through the link check. */
    ghost predicate Valid()
      reads this, service, service.repository, service.repository.items
    {
      && service.repository.Valid()
      && forall i :: 0 <= i < |Requests()| ==> IsValidLink(Requests()[i].link) == Accepted
    }

    constructor (service: ItemService)
      requires service.repository.Valid() && service.repository.Contents() == []
      ensures this.service == service && Valid()
    {
      this.service := service;
    }

    method Step(line: string, applicant: string, name: string, quantity: Int32, price: Int64, link: string)
      returns (outcome: Outcome<Item>)
      requires Valid()
      requires IsValidLink(link) == Accepted
      modifies service.repository, service.repository.items
      ensures Valid()
      ensures outcome != RegistrationFailed
      ensures Dispatch(line) == Register && old(|Requests()|) < service.repository.Capacity() ==>
                outcome == Registered && Requests() == old(Requests()) + [Item(applicant, name, quantity, price, link)]
      ensures Dispatch(line) == Register && old(|Requests()|) >= service.repository.Capacity() ==>
                outcome == StoreFull && Requests() == old(Requests())
      ensures Dispatch(line) == View ==>
                outcome == if old(Requests()) == [] then NothingRegistered else Listed(old(Requests()))
      ensures Dispatch(line) == Quit ==> outcome == Exiting
      ensures Dispatch(line) == Unknown ==> outcome == InvalidInput
      ensures Dispatch(line) != Register ==> unchanged(service.repository, service.repository.items)
    {
      match Dispatch(line)
      case Register =>
        var full := service.IsFull();
        if full {
          return StoreFull;
        }
        var ok := service.RegisterItem(applicant, name, quantity, price, link);
        assert Requests() == old(Requests()) + [Item(applicant, name, quantity, price, link)];
        forall i | 0 <= i < |Requests()|
          ensures IsValidLink(Requests()[i].link) == Accepted
        {
          if i < |old(Requests())| {
            assert Requests()[i] == old(Requests())[i];
          }
        }
        outcome := if ok then Registered else RegistrationFailed;
      case View =>
        var all := service.GetAllItems();
        if all.Length == 0 {
          outcome := NothingRegistered;
        } else {
          outcome := Listed(all[..]);
        }
      case Quit =>
        outcome := Exiting;
      case Unknown =>
        outcome := InvalidInput;
    }
  }
}
