/**
 * The phone book: two dictionaries, number to address and address to number, updated in
 * place. The JSON file, the file lock and the modification-time test that decides when to
 * reload are outside the model; a reload is an operation that is handed the loaded table.
 */
module Storage {
  import opened Wrappers

  datatype PhoneBookError =
    | NumberExists
    | AddressExists
    | NumberDoesNotExist
    | AddressDoesNotExist
    | MissingKey(key: string)   // the KeyError a `pop` or `del` of an absent key raises

  datatype Tables = Tables(numbersToAddresses: map<string, string>, addressesToNumbers: map<string, string>)

  const EMPTY: Tables := Tables(map[], map[])

  /** The two tables are inverse to each other. */
  predicate MutualInverse(t: Tables)
  {
    && (forall n :: n in t.numbersToAddresses ==>
          t.numbersToAddresses[n] in t.addressesToNumbers && t.addressesToNumbers[t.numbersToAddresses[n]] == n)
    && (forall a :: a in t.addressesToNumbers ==>
          t.addressesToNumbers[a] in t.numbersToAddresses && t.numbersToAddresses[t.addressesToNumbers[a]] == a)
  }

  /** `get_number`: looks the address up in the address-to-number table. */
  function LookupNumber(t: Tables, address: string): Result<string, PhoneBookError>
  {
    if address in t.addressesToNumbers then Ok(t.addressesToNumbers[address]) else Err(NumberDoesNotExist)
  }

  /** `get_address`: looks the number up in the number-to-address table. */
  function LookupAddress(t: Tables, number: string): Result<string, PhoneBookError>
  {
    if number in t.numbersToAddresses then Ok(t.numbersToAddresses[number]) else Err(AddressDoesNotExist)
  }

  /** Both entries written: the new state of a successful insert. */
  function Added(t: Tables, number: string, address: string): Tables
  {
    Tables(t.numbersToAddresses[number := address], t.addressesToNumbers[address := number])
  }

  /**
   * `insert` as written: the address is looked up with `get_address`, which reads the
   * number-to-address table, and the number with `get_number`, which reads the
   * address-to-number table.
   */
  function InsertEntryAsWritten(t: Tables, number: string, address: string): (Tables, Option<PhoneBookError>)
  {
    if LookupAddress(t, address).Ok? then (t, Some(AddressExists))
    else if LookupNumber(t, number).Ok? then (t, Some(NumberExists))
    else (Added(t, number, address), None)
  }

  /** `insert` as intended: an address that already has a number, or a number that already has an address, is refused. */
  function InsertEntry(t: Tables, number: string, address: string): (Tables, Option<PhoneBookError>)
  {
    if LookupNumber(t, address).Ok? then (t, Some(AddressExists))
    else if LookupAddress(t, number).Ok? then (t, Some(NumberExists))
    else (Added(t, number, address), None)
  }

  /** The errors `insert` raises as written, each leaving both tables as they were. */
  lemma InsertAsWrittenErrors(t: Tables, number: string, address: string)
    ensures InsertEntryAsWritten(t, number, address).1 == Some(AddressExists) <==> address in t.numbersToAddresses
    ensures InsertEntryAsWritten(t, number, address).1 == Some(NumberExists)
            <==> address !in t.numbersToAddresses && number in t.addressesToNumbers
    ensures InsertEntryAsWritten(t, number, address).1 != None ==> InsertEntryAsWritten(t, number, address).0 == t
  {
  }

  /** As written, an insert can give a number a second address, after which the tables are no longer inverse. */
  lemma InsertAsWrittenBreaksInverse()
    ensures MutualInverse(Tables(map["110" := "A"], map["A" := "110"]))
    ensures InsertEntryAsWritten(Tables(map["110" := "A"], map["A" := "110"]), "110", "B").1 == None
    ensures !MutualInverse(InsertEntryAsWritten(Tables(map["110" := "A"], map["A" := "110"]), "110", "B").0)
  {
    var t := Tables(map["110" := "A"], map["A" := "110"]);
    assert "B" !in t.numbersToAddresses && "110" !in t.addressesToNumbers;
    var t1 := Added(t, "110", "B");
    assert t1.addressesToNumbers["A"] == "110" && t1.numbersToAddresses["110"] == "B";
  }

  /** As written too, a successful insert makes each side of the pair look up the other, and every other entry is as before. */
  lemma InsertAsWrittenThenGet(t: Tables, number: string, address: string)
    requires InsertEntryAsWritten(t, number, address).1 == None
    ensures LookupAddress(InsertEntryAsWritten(t, number, address).0, number) == Ok(address)
    ensures LookupNumber(InsertEntryAsWritten(t, number, address).0, address) == Ok(number)
    ensures forall n :: n != number ==>
              LookupAddress(InsertEntryAsWritten(t, number, address).0, n) == LookupAddress(t, n)
    ensures forall a :: a != address ==>
              LookupNumber(InsertEntryAsWritten(t, number, address).0, a) == LookupNumber(t, a)
  {
  }

  /** The intended errors: exactly when the address or the number is taken, and nothing changes. */
  lemma InsertErrors(t: Tables, number: string, address: string)
    ensures InsertEntry(t, number, address).1 == Some(AddressExists) <==> address in t.addressesToNumbers
    ensures InsertEntry(t, number, address).1 == Some(NumberExists)
            <==> address !in t.addressesToNumbers && number in t.numbersToAddresses
    ensures InsertEntry(t, number, address).1 != None ==> InsertEntry(t, number, address).0 == t
  {
  }

  /** After a successful insert each side of the pair looks up the other; every other entry is as before. */
  lemma InsertThenGet(t: Tables, number: string, address: string)
    requires InsertEntry(t, number, address).1 == None
    ensures LookupAddress(InsertEntry(t, number, address).0, number) == Ok(address)
    ensures LookupNumber(InsertEntry(t, number, address).0, address) == Ok(number)
    ensures forall n :: n != number ==> LookupAddress(InsertEntry(t, number, address).0, n) == LookupAddress(t, n)
    ensures forall a :: a != address ==> LookupNumber(InsertEntry(t, number, address).0, a) == LookupNumber(t, a)
  {
  }

  /** The intended insert keeps the tables inverse. */
  lemma InsertPreservesInverse(t: Tables, number: string, address: string)
    requires MutualInverse(t)
    ensures MutualInverse(InsertEntry(t, number, address).0)
  {
    if InsertEntry(t, number, address).1 == None {
      var t1 := Added(t, number, address);
      forall n | n in t1.numbersToAddresses
        ensures t1.numbersToAddresses[n] in t1.addressesToNumbers && t1.addressesToNumbers[t1.numbersToAddresses[n]] == n
      {
        if n != number {
          assert t.numbersToAddresses[n] != address;
        }
      }
      forall a | a in t1.addressesToNumbers
        ensures t1.addressesToNumbers[a] in t1.numbersToAddresses && t1.numbersToAddresses[t1.addressesToNumbers[a]] == a
      {
        if a != address {
          assert t.addressesToNumbers[a] != number;
        }
      }
    }
  }

  /** `del_number`: the pop of the number, then the del of its address, which may be missing. */
  function RemoveNumber(t: Tables, number: string): (Tables, Option<PhoneBookError>)
  {
    if number !in t.numbersToAddresses then (t, Some(MissingKey(number)))
    else
      var address := t.numbersToAddresses[number];
      var popped := t.(numbersToAddresses := t.numbersToAddresses - {number});
      if address !in t.addressesToNumbers then (popped, Some(MissingKey(address)))
      else (popped.(addressesToNumbers := t.addressesToNumbers - {address}), None)
  }

  /** `del_address`, symmetric to `del_number`. */
  function RemoveAddress(t: Tables, address: string): (Tables, Option<PhoneBookError>)
  {
    if address !in t.addressesToNumbers then (t, Some(MissingKey(address)))
    else
      var number := t.addressesToNumbers[address];
      var popped := t.(addressesToNumbers := t.addressesToNumbers - {address});
      if number !in t.numbersToAddresses then (popped, Some(MissingKey(number)))
      else (popped.(numbersToAddresses := t.numbersToAddresses - {number}), None)
  }

  /**
   * On inverse tables `del_number` fails, changing nothing, exactly when the number is
   * absent; otherwise it removes the number and its address and keeps the tables inverse.
   */
  lemma DelNumberSpec(t: Tables, number: string)
    requires MutualInverse(t)
    ensures RemoveNumber(t, number).1 != None <==> number !in t.numbersToAddresses
    ensures number !in t.numbersToAddresses ==> RemoveNumber(t, number) == (t, Some(MissingKey(number)))
    ensures number in t.numbersToAddresses ==>
              RemoveNumber(t, number).0 == Tables(t.numbersToAddresses - {number},
                                                t.addressesToNumbers - {t.numbersToAddresses[number]})
    ensures MutualInverse(RemoveNumber(t, number).0)
  {
  }

  lemma DelAddressSpec(t: Tables, address: string)
    requires MutualInverse(t)
    ensures RemoveAddress(t, address).1 != None <==> address !in t.addressesToNumbers
    ensures address !in t.addressesToNumbers ==> RemoveAddress(t, address) == (t, Some(MissingKey(address)))
    ensures address in t.addressesToNumbers ==>
              RemoveAddress(t, address).0 == Tables(t.numbersToAddresses - {t.addressesToNumbers[address]},
                                                  t.addressesToNumbers - {address})
    ensures MutualInverse(RemoveAddress(t, address).0)
  {
  }

  /** Without the inverse, the missing second key raises after the first table was already changed. */
  lemma DelNumberPartial(t: Tables, number: string)
    requires number in t.numbersToAddresses && t.numbersToAddresses[number] !in t.addressesToNumbers
    ensures RemoveNumber(t, number) == (t.(numbersToAddresses := t.numbersToAddresses - {number}),
                                     Some(MissingKey(t.numbersToAddresses[number])))
  {
  }

  /** Deleting a number just inserted, or its address, gives back the tables before the insert. */
  lemma {:induction false} DeleteUndoesInsert(t: Tables, number: string, address: string)
    requires MutualInverse(t) && InsertEntry(t, number, address).1 == None
    ensures RemoveNumber(InsertEntry(t, number, address).0, number) == (t, None)
    ensures RemoveAddress(InsertEntry(t, number, address).0, address) == (t, None)
  {
    var t1 := Added(t, number, address);
    assert t1.numbersToAddresses - {number} == t.numbersToAddresses;
    assert t1.addressesToNumbers - {address} == t.addressesToNumbers;
  }

  // ---------------------------------------------------------------- the reverse map of a reload

  /**
   * `{a: n for n, a in forward.items()}` with the items in `order`: a later number with
   * the same address overwrites an earlier one.
   */
  function Invert(forward: map<string, string>, order: seq<string>): map<string, string>
    requires forall i :: 0 <= i < |order| ==> order[i] in forward
    decreases |order|
  {
    if order == [] then map[]
    else
      var n := order[|order| - 1];
      Invert(forward, order[..|order| - 1])[forward[n] := n]
  }

  /** Every reverse entry points at a number that maps back to it, and its keys are exactly the addresses in use. */
  lemma {:induction false} InvertSound(forward: map<string, string>, order: seq<string>)
    requires forall i :: 0 <= i < |order| ==> order[i] in forward
    ensures forall a :: a in Invert(forward, order) ==>
              Invert(forward, order)[a] in forward && forward[Invert(forward, order)[a]] == a
    ensures forall a :: a in Invert(forward, order) <==> exists i :: 0 <= i < |order| && forward[order[i]] == a
    decreases |order|
  {
    if order != [] {
      var prefix := order[..|order| - 1];
      InvertSound(forward, prefix);
      forall a | exists i :: 0 <= i < |order| && forward[order[i]] == a
        ensures a in Invert(forward, order)
      {
        var i :| 0 <= i < |order| && forward[order[i]] == a;
        if i < |order| - 1 {
          assert prefix[i] == order[i];
        }
      }
      forall a | a in Invert(forward, order)
        ensures exists i :: 0 <= i < |order| && forward[order[i]] == a
      {
        if a != forward[order[|order| - 1]] {
          assert a in Invert(forward, prefix);
          var i :| 0 <= i < |prefix| && forward[prefix[i]] == a;
          assert order[i] == prefix[i];
        }
      }
    }
  }

  predicate Injective(forward: map<string, string>)
  {
    forall n, m :: n in forward && m in forward && n != m ==> forward[n] != forward[m]
  }

  /** Reloading a table that gives no two numbers the same address restores the inverse, whatever the order. */
  lemma ReloadRestoresInverse(forward: map<string, string>, order: seq<string>)
    requires forall i :: 0 <= i < |order| ==> order[i] in forward
    requires forall n :: n in forward ==> n in order
    requires Injective(forward)
    ensures MutualInverse(Tables(forward, Invert(forward, order)))
  {
    InvertSound(forward, order);
    var inv := Invert(forward, order);
    forall n | n in forward ensures forward[n] in inv && inv[forward[n]] == n {
      var i :| 0 <= i < |order| && order[i] == n;
      assert forward[order[i]] == forward[n];
    }
  }

  // ---------------------------------------------------------------- list_all

  /** Python's order on strings: by code point, a proper prefix first. */
  predicate Less(a: string, b: string)
    decreases |a|
  {
    if a == [] then b != []
    else if b == [] then false
    else if a[0] != b[0] then a[0] < b[0]
    else Less(a[1..], b[1..])
  }

  lemma {:induction false} LessIrreflexive(a: string)
    ensures !Less(a, a)
    decreases |a|
  {
    if a != [] {
      LessIrreflexive(a[1..]);
    }
  }

  lemma {:induction false} LessTransitive(a: string, b: string, c: string)
    requires Less(a, b) && Less(b, c)
    ensures Less(a, c)
    decreases |a|
  {
    if a != [] && a[0] == b[0] && b[0] == c[0] {
      LessTransitive(a[1..], b[1..], c[1..]);
    }
  }

  lemma {:induction false} LessTotal(a: string, b: string)
    ensures a == b || Less(a, b) || Less(b, a)
    decreases |a|
  {
    if a != [] && b != [] && a[0] == b[0] {
      LessTotal(a[1..], b[1..]);
      if a[1..] == b[1..] {
        assert a == [a[0]] + a[1..] && b == [b[0]] + b[1..];
      }
    }
  }

  predicate IsLeast(n: string, keys: set<string>)
  {
    n in keys && forall k :: k in keys ==> !Less(k, n)
  }

  lemma {:induction false} LeastExists(keys: set<string>)
    requires keys != {}
    ensures exists n :: IsLeast(n, keys)
    decreases |keys|
  {
    var k :| k in keys;
    if keys == {k} {
      LessIrreflexive(k);
      assert IsLeast(k, keys);
    } else {
      LeastExists(keys - {k});
      var n :| IsLeast(n, keys - {k});
      if Less(k, n) {
        LessIrreflexive(k);
        forall j | j in keys ensures !Less(j, k) {
          if j != k && Less(j, k) {
            LessTransitive(j, k, n);
          }
        }
        assert IsLeast(k, keys);
      } else {
        assert IsLeast(n, keys);
      }
    }
  }

  /** A set has at most one least element, since the order is total. */
  lemma LeastUnique(keys: set<string>)
    ensures forall n, m :: IsLeast(n, keys) && IsLeast(m, keys) ==> n == m
  {
    forall n, m | IsLeast(n, keys) && IsLeast(m, keys) ensures n == m {
      LessTotal(n, m);
    }
  }

  /** `sorted(keys)`; the keys are distinct, so the order is strict. */
  function SortedKeys(keys: set<string>): seq<string>
    decreases |keys|
  {
    if keys == {} then []
    else
      LeastExists(keys);
      LeastUnique(keys);
      var n :| IsLeast(n, keys);
      [n] + SortedKeys(keys - {n})
  }

  lemma {:induction false} SortedKeysSpec(keys: set<string>)
    ensures |SortedKeys(keys)| == |keys|
    ensures forall i :: 0 <= i < |SortedKeys(keys)| ==> SortedKeys(keys)[i] in keys
    ensures forall k :: k in keys ==> k in SortedKeys(keys)
    ensures forall i, j :: 0 <= i < j < |SortedKeys(keys)| ==> Less(SortedKeys(keys)[i], SortedKeys(keys)[j])
    decreases |keys|
  {
    if keys != {} {
      var r := SortedKeys(keys);
      var n := r[0];
      var rest := keys - {n};
      assert IsLeast(n, keys) && r == [n] + SortedKeys(rest);
      SortedKeysSpec(rest);
      forall j | 0 < j < |r| ensures Less(n, r[j]) {
        assert r[j] in rest;
        LessTotal(n, r[j]);
      }
    }
  }

  /** `list_all`: the (number, address) pairs, sorted. */
  function SortedEntries(t: Tables): seq<(string, string)>
  {
    var keys := SortedKeys(t.numbersToAddresses.Keys);
    SortedKeysSpec(t.numbersToAddresses.Keys);
    seq(|keys|, i requires 0 <= i < |keys| => (keys[i], t.numbersToAddresses[keys[i]]))
  }

  /** Every entry exactly once, each paired with its address, in strictly increasing order of number. */
  lemma ListAllSpec(t: Tables)
    ensures |SortedEntries(t)| == |t.numbersToAddresses|
    ensures forall i :: 0 <= i < |SortedEntries(t)| ==>
              SortedEntries(t)[i].0 in t.numbersToAddresses && t.numbersToAddresses[SortedEntries(t)[i].0] == SortedEntries(t)[i].1
    ensures forall n :: n in t.numbersToAddresses ==> (n, t.numbersToAddresses[n]) in SortedEntries(t)
    ensures forall i, j :: 0 <= i < j < |SortedEntries(t)| ==> Less(SortedEntries(t)[i].0, SortedEntries(t)[j].0)
  {
    var keys := SortedKeys(t.numbersToAddresses.Keys);
    SortedKeysSpec(t.numbersToAddresses.Keys);
    assert |t.numbersToAddresses.Keys| == |t.numbersToAddresses|;
    forall n | n in t.numbersToAddresses ensures (n, t.numbersToAddresses[n]) in SortedEntries(t) {
      var i :| 0 <= i < |keys| && keys[i] == n;
      assert SortedEntries(t)[i] == (n, t.numbersToAddresses[n]);
    }
  }

  // ---------------------------------------------------------------- the object

  class PhoneBook {
    var numbersToAddresses: map<string, string>
    var addressesToNumbers: map<string, string>

    function Snapshot(): Tables
      reads this
    {
      Tables(numbersToAddresses, addressesToNumbers)
    }

    constructor ()
      ensures Snapshot() == EMPTY
    {
      numbersToAddresses := map[];
      addressesToNumbers := map[];
    }

    /** `_maybe_reload_phone_book` when the file is newer: `loaded` is the file's table, `order` its key order. */
    method Reload(loaded: map<string, string>, order: seq<string>)
      requires forall i :: 0 <= i < |order| ==> order[i] in loaded
      requires forall n :: n in loaded ==> n in order
      requires forall i, j :: 0 <= i < j < |order| ==> order[i] != order[j]
      modifies this
      ensures Snapshot() == Tables(loaded, Invert(loaded, order))
    {
      numbersToAddresses := loaded;
      addressesToNumbers := Invert(loaded, order);
    }

    method GetNumber(address: string) returns (r: Result<string, PhoneBookError>)
      ensures r == LookupNumber(Snapshot(), address)
    {
      if address in addressesToNumbers {
        r := Ok(addressesToNumbers[address]);
      } else {
        r := Err(NumberDoesNotExist);
      }
    }

    method GetAddress(number: string) returns (r: Result<string, PhoneBookError>)
      ensures r == LookupAddress(Snapshot(), number)
    {
      if number in numbersToAddresses {
        r := Ok(numbersToAddresses[number]);
      } else {
        r := Err(AddressDoesNotExist);
      }
    }

    /** `insert` as written: the address is looked up with `get_address` and the number with `get_number`. */
    method Insert(number: string, address: string) returns (error: Option<PhoneBookError>)
      modifies this
      ensures (Snapshot(), error) == InsertEntryAsWritten(old(Snapshot()), number, address)
    {
      var existing := GetAddress(address);
      if existing.Ok? {
        return Some(AddressExists);
      }
      var taken := GetNumber(number);
      if taken.Ok? {
        return Some(NumberExists);
      }
      numbersToAddresses := numbersToAddresses[number := address];
      addressesToNumbers := addressesToNumbers[address := number];
      error := None;
    }

    /** `insert` with the lookups it evidently intends: an address with a number, or a number with an address, is refused. */
    method InsertChecked(number: string, address: string) returns (error: Option<PhoneBookError>)
      modifies this
      ensures (Snapshot(), error) == InsertEntry(old(Snapshot()), number, address)
    {
      var existing := GetNumber(address);
      if existing.Ok? {
        return Some(AddressExists);
      }
      var taken := GetAddress(number);
      if taken.Ok? {
        return Some(NumberExists);
      }
      numbersToAddresses := numbersToAddresses[number := address];
      addressesToNumbers := addressesToNumbers[address := number];
      error := None;
    }

    method DelNumber(number: string) returns (error: Option<PhoneBookError>)
      modifies this
      ensures (Snapshot(), error) == RemoveNumber(old(Snapshot()), number)
    {
      if number !in numbersToAddresses {
        return Some(MissingKey(number));
      }
      var address := numbersToAddresses[number];
      numbersToAddresses := numbersToAddresses - {number};
      if address !in addressesToNumbers {
        return Some(MissingKey(address));
      }
      addressesToNumbers := addressesToNumbers - {address};
      error := None;
    }

    method DelAddress(address: string) returns (error: Option<PhoneBookError>)
      modifies this
      ensures (Snapshot(), error) == RemoveAddress(old(Snapshot()), address)
    {
      if address !in addressesToNumbers {
        return Some(MissingKey(address));
      }
      var number := addressesToNumbers[address];
      addressesToNumbers := addressesToNumbers - {address};
      if number !in numbersToAddresses {
        return Some(MissingKey(number));
      }
      numbersToAddresses := numbersToAddresses - {number};
      error := None;
    }

    function ListAll(): (r: seq<(string, string)>)
      reads this
    {
      SortedEntries(Snapshot())
    }
  }

  /** Two inserts, as written, into an empty book list both pairs in order of number, and each looks up the other. */
  lemma TwoEntriesScenario()
    ensures var t1 := InsertEntryAsWritten(EMPTY, "110", "0.0.0.0");
            var t2 := InsertEntryAsWritten(t1.0, "112", "0.0.0.1");
            && t1.1 == None && t2.1 == None
            && SortedEntries(t2.0) == [("110", "0.0.0.0"), ("112", "0.0.0.1")]
            && LookupNumber(t2.0, "0.0.0.0") == Ok("110")
            && LookupAddress(t2.0, "110") == Ok("0.0.0.0")
  {
    var t2 := Tables(map["110" := "0.0.0.0", "112" := "0.0.0.1"], map["0.0.0.0" := "110", "0.0.0.1" := "112"]);
    assert InsertEntryAsWritten(InsertEntryAsWritten(EMPTY, "110", "0.0.0.0").0, "112", "0.0.0.1").0 == t2;
    assert Less("110", "112");
    SortedTwoEntries(t2, "110", "0.0.0.0", "112", "0.0.0.1");
  }

  /** A book with two numbers lists them in their order. */
  lemma SortedTwoEntries(t: Tables, a: string, x: string, b: string, y: string)
    requires t.numbersToAddresses == map[a := x, b := y] && Less(a, b)
    ensures SortedEntries(t) == [(a, x), (b, y)]
  {
    LessIrreflexive(a);
    LessIrreflexive(b);
    assert t.numbersToAddresses.Keys == {a, b};
    ListAllSpec(t);
    var l := SortedEntries(t);
    assert |l| == 2 && Less(l[0].0, l[1].0);
    if l[0].0 == b {
      LessTransitive(a, b, a);
      assert false;
    }
  }
}
