/**
 * The menu of the two answer programs: the trimmed input line selects an
 * action by its content, and each pass through the loop ends in one of a
 * fixed set of observable outcomes (the message the program prints).
 */
module Menu {
  import opened Strings

  /** What a menu line asks for. */
  datatype Command = Register | View | Quit | Unknown

  /** What one pass through the menu loop shows the user. */
  datatype Outcome<T> =
    | StoreFull            // "cannot accept more requests (maximum 5)"; nothing is prompted
    | Registered           // "registration complete"
    | RegistrationFailed   // "registration failed: storage is full"
    | NothingRegistered    // "no requests have been registered"
    | Listed(items: seq<T>) // one rendered line per item, in insertion order
    | Exiting              // "exiting the program"; the loop ends
    | InvalidInput         // "invalid input"

  /** `switch (line.trim())` over the cases "1", "2" and "3"; anything else is the default. */
  function Dispatch(line: string): (c: Command)
    ensures c == Register <==> Trim(line) == "1"
    ensures c == View <==> Trim(line) == "2"
    ensures c == Quit <==> Trim(line) == "3"
  {
    var key := Trim(line);
    if key == "1" then Register
    else if key == "2" then View
    else if key == "3" then Quit
    else Unknown
  }

  /** Blank padding around a selection does not change what it selects. */
  lemma DispatchIgnoresPadding(pre: string, key: string, post: string)
    requires AllBlank(pre) && AllBlank(post) && IsTrimmed(key)
    ensures Dispatch(pre + key + post) == Dispatch(key)
  {
    TrimPadded(pre, key, post);
    TrimPadded([], key, []);
    assert [] + key + [] == key;
  }

  /** The three menu keys, and a key that is not one of them. */
  lemma DispatchKeys()
    ensures Dispatch("1") == Register
    ensures Dispatch("2") == View
    ensures Dispatch("3") == Quit
    ensures Dispatch("4") == Unknown
    ensures Dispatch(" 1\t") == Register
  {
    TrimPadded([], "1", []);
    TrimPadded([], "2", []);
    TrimPadded([], "3", []);
    TrimPadded([], "4", []);
    TrimPadded(" ", "1", "\t");
    assert [] + "1" + [] == "1";
    assert [] + "2" + [] == "2";
    assert [] + "3" + [] == "3";
    assert [] + "4" + [] == "4";
  }
}
