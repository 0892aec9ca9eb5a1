// Validation of message headers (Framework/queueclient/client.go): bounds, valid
// names and values, and no two names that differ in ASCII case only, on four
// paths by the number of headers. One of them finds duplicates in a fixed table
// with open addressing.

module HeaderNames {
  // Strings are byte sequences.
  type Bytes = seq<bv8>

  const SLOTS := 128

  function Lower(c: bv8): bv8 {
    if 0x41 <= c <= 0x5A then c + 0x20 else c
  }

  function Fold(name: Bytes): (r: Bytes)
    ensures |r| == |name|
  {
    seq(|name|, i requires 0 <= i < |name| => Lower(name[i]))
  }

  // strings.EqualFold on ASCII names.
  predicate EqualFold(a: Bytes, b: Bytes) {
    Fold(a) == Fold(b)
  }

  predicate ValidName(name: Bytes) {
    name != [] && forall i :: 0 <= i < |name| ==> 0x21 <= name[i] <= 0x7E
  }

  predicate ValidValue(value: Bytes) {
    0 !in value && 10 !in value && 13 !in value
  }

  method ValidHeaderName(name: Bytes) returns (ok: bool)
    ensures ok == ValidName(name)
  {
    if name == [] {
      return false;
    }
    for index := 0 to |name|
      invariant forall i :: 0 <= i < index ==> 0x21 <= name[i] <= 0x7E
    {
      if name[index] < 0x21 || name[index] > 0x7E {
        return false;
      }
    }
    return true;
  }

  method ValidHeaderValue(value: Bytes) returns (ok: bool)
    ensures ok == ValidValue(value)
  {
    for index := 0 to |value|
      invariant 0 !in value[..index] && 10 !in value[..index] && 13 !in value[..index]
    {
      if value[index] == 0 || value[index] == 10 || value[index] == 13 {
        assert value[index] in value;
        return false;
      }
      assert value[..index + 1] == value[..index] + [value[index]];
    }
    assert value[..|value|] == value;
    return true;
  }

  function Mix(hash: bv64, character: bv8): bv64 {
    (hash ^ (character as bv64)) * 1099511628211
  }

  // FNV-1a over the bytes given.
  function Hash(s: Bytes): bv64 {
    if s == [] then 14695981039346656037 else Mix(Hash(s[..|s| - 1]), s[|s| - 1])
  }

  lemma HashStep(s: Bytes, i: nat)
    requires i < |s|
    ensures Hash(s[..i + 1]) == Mix(Hash(s[..i]), s[i])
  {
    hide Mix;
    assert s[..i + 1][..i] == s[..i];
  }

  // The hash of a name is the hash of its lower-case form.
  method FoldedHeaderNameHash(name: Bytes) returns (hash: bv64)
    ensures hash == Hash(Fold(name))
  {
    hide Mix, Hash;
    EmptyHash();
    hash := 14695981039346656037;
    for index := 0 to |name|
      invariant hash == Hash(Fold(name)[..index])
    {
      var character := name[index];
      if 0x41 <= character <= 0x5A {
        character := character + 0x20;
      }
      HashStep(Fold(name), index);
      hash := Mix(hash, character);
    }
    assert Fold(name)[..|name|] == Fold(name);
  }

  lemma EmptyHash()
    ensures Hash([]) == 14695981039346656037
  {
  }

  function Slot(hash: bv64): (r: nat)
    ensures r < SLOTS
  {
    (hash & 127) as nat
  }

  function Home(name: Bytes): (r: nat)
    ensures r < SLOTS
  {
    Slot(Hash(Fold(name)))
  }

  // The slot that probing for a name visits after `step` others.
  function Probe(home: nat, step: nat): (r: nat)
    ensures r < SLOTS
  {
    (home + step) % SLOTS
  }

  function Names(table: seq<Bytes>): set<Bytes> {
    set n | n in table && n != []
  }

  function Occupied(table: seq<Bytes>): (r: nat)
    ensures r <= |table|
  {
    if table == [] then 0 else Occupied(table[..|table| - 1]) + if table[|table| - 1] == [] then 0 else 1
  }

  // Every stored name is found by probing from its home slot without meeting an
  // empty slot.
  ghost predicate Probeable(table: seq<Bytes>) {
    |table| == SLOTS && forall n :: n in table && n != [] ==> Found(table, n)
  }

  ghost predicate Found(table: seq<Bytes>, n: Bytes)
    requires |table| == SLOTS
  {
    exists step :: 0 <= step < SLOTS && FoundAt(table, n, step)
  }

  // Probing from the home of a name past that many slots met no empty slot and
  // no equal name.
  ghost predicate Missed(table: seq<Bytes>, name: Bytes, step: nat)
    requires |table| == SLOTS
  {
    Full(table, Home(name), step) && forall k :: 0 <= k < step ==> !EqualFold(table[Probe(Home(name), k)], name)
  }

  lemma MissedOneMore(table: seq<Bytes>, name: Bytes, step: nat)
    requires |table| == SLOTS && Missed(table, name, step)
    requires table[Probe(Home(name), step)] != [] && !EqualFold(table[Probe(Home(name), step)], name)
    ensures Missed(table, name, step + 1)
  {
  }

  ghost predicate FoundAt(table: seq<Bytes>, n: Bytes, step: nat)
    requires |table| == SLOTS
  {
    table[Probe(Home(n), step)] == n && Full(table, Home(n), step)
  }

  ghost predicate Full(table: seq<Bytes>, home: nat, step: nat)
    requires |table| == SLOTS
  {
    forall k :: 0 <= k < step ==> table[Probe(home, k)] != []
  }

  lemma {:induction false} AllOccupied(table: seq<Bytes>)
    requires forall i :: 0 <= i < |table| ==> table[i] != []
    ensures Occupied(table) == |table|
  {
    if table != [] {
      AllOccupied(table[..|table| - 1]);
    }
  }

  lemma {:induction false} OneMoreOccupied(table: seq<Bytes>, i: nat, n: Bytes)
    requires i < |table| && table[i] == [] && n != []
    ensures Occupied(table[i := n]) == Occupied(table) + 1
  {
    var last := |table| - 1;
    if i == last {
      assert table[i := n][..last] == table[..last];
    } else {
      OneMoreOccupied(table[..last], i, n);
      assert table[i := n][..last] == table[..last][i := n];
    }
  }

  // 128 probes visit every slot.
  lemma ProbesCover(home: nat, i: nat)
    requires home < SLOTS && i < SLOTS
    ensures exists step :: 0 <= step < SLOTS && Probe(home, step) == i
  {
    assert Probe(home, if home <= i then i - home else i + SLOTS - home) == i;
  }

  lemma FullTableIsOccupied(table: seq<Bytes>, name: Bytes)
    requires |table| == SLOTS && Missed(table, name, SLOTS)
    ensures Occupied(table) == SLOTS
  {
    var home := Home(name);
    forall i | 0 <= i < SLOTS ensures table[i] != [] {
      ProbesCover(home, i);
      var step :| 0 <= step < SLOTS && Probe(home, step) == i;
      assert table[Probe(home, step)] != [];
    }
    AllOccupied(table);
  }

  // An empty slot after probing without a match: no stored name equals the name
  // ignoring case, since that name would have been met.
  lemma EmptySlotMeansAbsent(table: seq<Bytes>, name: Bytes, step: nat)
    requires Probeable(table) && step < SLOTS
    requires table[Probe(Home(name), step)] == [] && Missed(table, name, step)
    ensures forall n :: n in Names(table) ==> !EqualFold(n, name)
  {
    hide Fold, Probe;
    forall n | n in Names(table) ensures !EqualFold(n, name) {
      assert Found(table, n);
      var d :| 0 <= d < SLOTS && FoundAt(table, n, d);
      assert EqualFold(n, name) ==> Home(n) == Home(name);
    }
  }

  lemma InsertKeepsProbeable(table: seq<Bytes>, name: Bytes, step: nat)
    requires Probeable(table) && step < SLOTS && name != []
    requires table[Probe(Home(name), step)] == [] && Missed(table, name, step)
    ensures
      var t := table[Probe(Home(name), step) := name];
      Probeable(t) && Names(t) == Names(table) + {name} && Occupied(t) == Occupied(table) + 1
  {
    hide Fold, Probe, Home;
    var slot := Probe(Home(name), step);
    var t := table[slot := name];
    OneMoreOccupied(table, slot, name);
    assert t[slot] == name;
    forall n | n in t && n != [] ensures Found(t, n) {
      if n == name {
        assert FoundAt(t, name, step);
      } else {
        assert Found(table, n);
        var d :| 0 <= d < SLOTS && FoundAt(table, n, d);
        assert FoundAt(t, n, d);
      }
    }
    forall n | n in Names(table) ensures n in t {
      var i :| 0 <= i < SLOTS && table[i] == n;
      assert t[i] == n;
    }
  }

  // Reports a duplicate exactly when a name equal ignoring case was inserted,
  // and otherwise always finds a slot.
  method InsertFoldedHeaderName(names: array<Bytes>, name: Bytes) returns (inserted: bool)
    requires names.Length == SLOTS && Probeable(names[..]) && Occupied(names[..]) < SLOTS && name != []
    modifies names
    ensures Probeable(names[..])
    ensures inserted <==> forall n :: n in Names(old(names[..])) ==> !EqualFold(n, name)
    ensures inserted ==> Names(names[..]) == Names(old(names[..])) + {name} && Occupied(names[..]) == Occupied(old(names[..])) + 1
    ensures !inserted ==> names[..] == old(names[..])
  {
    hide Occupied, Names, Fold, Found, Missed, Probe;
    var hash := FoldedHeaderNameHash(name);
    var index: nat := Slot(hash);
    ghost var table := names[..];
    FirstProbe(table, name);
    for step := 0 to SLOTS
      invariant names[..] == table && index == Probe(Home(name), step) && Missed(table, name, step)
    {
      var previous := names[index];
      if previous == [] {
        EmptySlotMeansAbsent(table, name, step);
        InsertKeepsProbeable(table, name, step);
        names[index] := name;
        assert names[..] == table[Probe(Home(name), step) := name];
        return true;
      }
      if EqualFold(previous, name) {
        IsStored(table, index);
        return false;
      }
      MissedOneMore(table, name, step);
      NextProbe(Home(name), step);
      index := (index + 1) % SLOTS;
    }
    FullTableIsOccupied(table, name);
    assert false;
  }

  lemma FirstProbe(table: seq<Bytes>, name: Bytes)
    requires |table| == SLOTS
    ensures Missed(table, name, 0) && Probe(Home(name), 0) == Slot(Hash(Fold(name)))
  {
  }

  lemma NextProbe(home: nat, step: nat)
    ensures Probe(home, step + 1) == (Probe(home, step) + 1) % SLOTS
  {
  }

  lemma IsStored(table: seq<Bytes>, i: nat)
    requires i < |table| && table[i] != []
    ensures table[i] in Names(table)
  {
  }
}

module HeaderValidation {
  import opened Common
  import opened HeaderNames

  type Headers = map<Bytes, Bytes>

  datatype Verdict = Accepted | TooLarge | InvalidHeader

  // The bytes of some of the headers.
  ghost function Total(headers: Headers, names: set<Bytes>): (r: nat)
    requires names <= headers.Keys
  {
    if names == {} then 0 else
      var n :| n in names;
      |n| + |headers[n]| + Total(headers, names - {n})
  }

  lemma {:induction false} TotalAdds(headers: Headers, names: set<Bytes>, n: Bytes)
    requires names <= headers.Keys && n in names
    ensures Total(headers, names) == |n| + |headers[n]| + Total(headers, names - {n})
  {
    var m :| m in names && Total(headers, names) == |m| + |headers[m]| + Total(headers, names - {m});
    if m != n {
      TotalAdds(headers, names - {m}, n);
      TotalAdds(headers, names - {n}, m);
      assert names - {m} - {n} == names - {n} - {m};
    }
  }

  lemma {:induction false} TotalGrows(headers: Headers, some: set<Bytes>, all: set<Bytes>)
    requires some <= all <= headers.Keys
    ensures Total(headers, some) <= Total(headers, all)
  {
    if some != all {
      var n :| n in all && n !in some;
      TotalAdds(headers, all, n);
      TotalGrows(headers, some, all - {n});
    }
  }

  ghost predicate AllValid(headers: Headers, names: set<Bytes>)
    requires names <= headers.Keys
  {
    forall n :: n in names ==> ValidName(n) && ValidValue(headers[n])
  }

  ghost predicate NoDuplicates(names: set<Bytes>) {
    forall m, n :: m in names && n in names && EqualFold(m, n) ==> m == n
  }

  // What validation demands of some of the headers.
  ghost predicate Good(headers: Headers, names: set<Bytes>, maxBytes: int)
    requires names <= headers.Keys
  {
    AllValid(headers, names) && NoDuplicates(names) && Total(headers, names) <= maxBytes
  }

  predicate Clashes(names: set<Bytes>, name: Bytes) {
    exists n :: n in names && EqualFold(n, name)
  }

  ghost predicate Valid(headers: Headers, maxHeaders: int, maxBytes: int) {
    |headers| <= maxHeaders && Good(headers, headers.Keys, maxBytes)
  }

  // Why a refusal is right.
  ghost predicate Explains(headers: Headers, maxHeaders: int, maxBytes: int, verdict: Verdict) {
    match verdict
    case Accepted => Valid(headers, maxHeaders, maxBytes)
    case TooLarge => |headers| > maxHeaders || Total(headers, headers.Keys) > maxBytes
    case InvalidHeader => !AllValid(headers, headers.Keys) || !NoDuplicates(headers.Keys)
  }

  // One more header is good exactly when it is valid, clashes with none before
  // it, and still fits.
  lemma GoodStep(headers: Headers, seen: set<Bytes>, name: Bytes, maxBytes: int)
    requires seen <= headers.Keys && name in headers && name !in seen && Good(headers, seen, maxBytes)
    ensures Total(headers, seen + {name}) == Total(headers, seen) + |name| + |headers[name]|
    ensures Good(headers, seen + {name}, maxBytes) <==>
              && ValidName(name) && ValidValue(headers[name]) && !Clashes(seen, name)
              && Total(headers, seen) + |name| + |headers[name]| <= maxBytes
  {
    TotalAdds(headers, seen + {name}, name);
    assert seen + {name} - {name} == seen;
    hide ValidName, ValidValue, Fold, Total;
  }

  lemma Refused(headers: Headers, seen: set<Bytes>, name: Bytes, maxBytes: int)
    requires seen <= headers.Keys && name in headers && name !in seen && Good(headers, seen, maxBytes)
    ensures !ValidName(name) || !ValidValue(headers[name]) ==> !AllValid(headers, headers.Keys)
    ensures Clashes(seen, name) ==> !NoDuplicates(headers.Keys)
    ensures Total(headers, seen) + |name| + |headers[name]| > maxBytes ==> Total(headers, headers.Keys) > maxBytes
  {
    GoodStep(headers, seen, name, maxBytes);
    TotalGrows(headers, seen + {name}, headers.Keys);
    hide ValidName, ValidValue, Fold, Total;
  }

  // The checks that every path makes of one header, but for duplicates.
  method Measure(headers: Headers, name: Bytes, maxBytes: int, totalBytes: int) returns (verdict: Verdict, sum: int)
    requires name in headers && totalBytes <= maxBytes
    ensures verdict.Accepted? ==> sum == totalBytes + |name| + |headers[name]| <= maxBytes
    ensures !verdict.Accepted? ==> verdict.TooLarge? && totalBytes + |name| + |headers[name]| > maxBytes
  {
    if |name| > maxBytes - totalBytes {
      return TooLarge, totalBytes;
    }
    sum := totalBytes + |name|;
    if |headers[name]| > maxBytes - sum {
      return TooLarge, sum;
    }
    return Accepted, sum + |headers[name]|;
  }

  method ValidHeader(headers: Headers, name: Bytes) returns (ok: bool)
    requires name in headers
    ensures ok == (ValidName(name) && ValidValue(headers[name]))
  {
    ok := ValidHeaderName(name);
    if ok {
      ok := ValidHeaderValue(headers[name]);
    }
  }

  // How far a pass over the headers, in any order, has come.
  ghost predicate Passed(headers: Headers, todo: set<Bytes>, seen: set<Bytes>, maxBytes: int, totalBytes: int) {
    && todo <= headers.Keys && seen == headers.Keys - todo
    && Good(headers, seen, maxBytes) && totalBytes == Total(headers, seen)
  }

  lemma FirstPassed(headers: Headers, maxBytes: int)
    requires maxBytes >= 0
    ensures Passed(headers, headers.Keys, {}, maxBytes, 0)
  {
  }

  lemma NextPassed(headers: Headers, todo: set<Bytes>, seen: set<Bytes>, maxBytes: int, totalBytes: int, name: Bytes)
    requires Passed(headers, todo, seen, maxBytes, totalBytes) && name in todo
    ensures name in headers && name !in seen && seen <= headers.Keys && totalBytes <= maxBytes
    ensures !ValidName(name) || !ValidValue(headers[name]) || Clashes(seen, name) ==>
              Explains(headers, |headers|, maxBytes, InvalidHeader)
    ensures totalBytes + |name| + |headers[name]| > maxBytes ==> Explains(headers, |headers|, maxBytes, TooLarge)
    ensures ValidName(name) && ValidValue(headers[name]) && !Clashes(seen, name) && totalBytes + |name| + |headers[name]| <= maxBytes
            ==> Passed(headers, todo - {name}, seen + {name}, maxBytes, totalBytes + |name| + |headers[name]|)
  {
    GoodStep(headers, seen, name, maxBytes);
    Refused(headers, seen, name, maxBytes);
    assert headers.Keys - (todo - {name}) == seen + {name};
    hide ValidName, ValidValue, Clashes, AllValid, NoDuplicates, Total;
  }

  lemma AllPassed(headers: Headers, seen: set<Bytes>, maxBytes: int, totalBytes: int)
    requires Passed(headers, {}, seen, maxBytes, totalBytes)
    ensures Explains(headers, |headers|, maxBytes, Accepted)
  {
    hide AllValid, NoDuplicates, Total;
    assert headers.Keys - {} == headers.Keys;
  }

  // The entry point, and its four paths.
  method ValidateHeaders(headers: Headers, maxHeaders: int, maxBytes: int) returns (verdict: Verdict)
    requires maxBytes >= 0
    ensures verdict.Accepted? <==> Valid(headers, maxHeaders, maxBytes)
    ensures Explains(headers, maxHeaders, maxBytes, verdict)
  {
    if |headers| > maxHeaders {
      return TooLarge;
    }
    if |headers| == 2 {
      verdict := ValidatePair(headers, maxBytes);
    } else if 2 < |headers| <= 8 {
      verdict := ValidateFew(headers, maxBytes);
    } else if 8 < |headers| <= 64 {
      verdict := ValidateBoundedHeaders(headers, maxBytes);
    } else {
      verdict := ValidateMapped(headers, maxBytes);
    }
  }

  method ValidatePair(headers: Headers, maxBytes: int) returns (verdict: Verdict)
    requires maxBytes >= 0 && |headers| == 2
    ensures Explains(headers, |headers|, maxBytes, verdict)
  {
    hide Passed, Explains, ValidName, ValidValue, EqualFold, Clashes;
    var todo := headers.Keys;
    ghost var seen: set<Bytes> := {};
    var firstName: Bytes := [];
    var totalBytes := 0;
    FirstPassed(headers, maxBytes);
    while todo != {}
      invariant Passed(headers, todo, seen, maxBytes, totalBytes)
      invariant firstName == [] ==> seen == {} && |todo| == 2
      invariant firstName != [] && todo != {} ==> seen == {firstName} && |todo| == 1
    {
      var name :| name in todo;
      NextPassed(headers, todo, seen, maxBytes, totalBytes, name);
      var ok := ValidHeader(headers, name);
      if !ok {
        return InvalidHeader;
      }
      var measured, sum := Measure(headers, name, maxBytes, totalBytes);
      if !measured.Accepted? {
        return TooLarge;
      }
      OneClashes(seen, firstName, name);
      if firstName == [] {
        NotEmpty(name);
        firstName := name;
      } else if EqualFold(firstName, name) {
        return InvalidHeader;
      }
      OneFewer(todo, name);
      todo := todo - {name};
      seen := seen + {name};
      totalBytes := sum;
    }
    AllPassed(headers, seen, maxBytes, totalBytes);
    return Accepted;
  }

  lemma OneFewer(todo: set<Bytes>, name: Bytes)
    requires name in todo
    ensures |todo - {name}| == |todo| - 1
    ensures |todo| == 1 ==> todo - {name} == {}
  {
  }

  lemma OneClashes(seen: set<Bytes>, first: Bytes, name: Bytes)
    ensures seen == {} ==> !Clashes(seen, name)
    ensures seen == {first} ==> (Clashes(seen, name) <==> EqualFold(first, name))
  {
  }

  lemma NotEmpty(name: Bytes)
    requires ValidName(name)
    ensures name != []
  {
  }

  // Up to eight names are compared pairwise.
  method ValidateFew(headers: Headers, maxBytes: int) returns (verdict: Verdict)
    requires maxBytes >= 0 && |headers| <= 8
    ensures Explains(headers, |headers|, maxBytes, verdict)
  {
    hide Passed, Explains, ValidName, ValidValue, EqualFold, Clashes, Prefix;
    var names := new Bytes[8](i => []);
    var index := 0;
    var todo := headers.Keys;
    ghost var seen: set<Bytes> := {};
    var totalBytes := 0;
    FirstPassed(headers, maxBytes);
    assert |headers.Keys| == |headers|;
    PrefixNone(names[..]);
    while todo != {}
      invariant Passed(headers, todo, seen, maxBytes, totalBytes)
      invariant 0 <= index && index + |todo| <= 8
      invariant Prefix(names[..], index, seen)
    {
      var name :| name in todo;
      NextPassed(headers, todo, seen, maxBytes, totalBytes, name);
      var ok := ValidHeader(headers, name);
      if !ok {
        return InvalidHeader;
      }
      var clash := MeetsEqual(names, index, name);
      PrefixClashes(names[..], index, seen, name);
      if clash {
        return InvalidHeader;
      }
      var measured, sum := Measure(headers, name, maxBytes, totalBytes);
      if !measured.Accepted? {
        return TooLarge;
      }
      todo := todo - {name};
      PrefixAdds(names[..], index, seen, name);
      ghost var before := names[..];
      names[index] := name;
      assert names[..] == before[index := name];
      index := index + 1;
      seen := seen + {name};
      totalBytes := sum;
    }
    AllPassed(headers, seen, maxBytes, totalBytes);
    return Accepted;
  }

  method MeetsEqual(names: array<Bytes>, index: nat, name: Bytes) returns (clash: bool)
    requires index <= names.Length
    ensures clash <==> exists i :: 0 <= i < index && EqualFold(names[i], name)
  {
    for i := 0 to index
      invariant forall j :: 0 <= j < i ==> !EqualFold(names[j], name)
    {
      if EqualFold(names[i], name) {
        return true;
      }
    }
    return false;
  }

  // The first entries of the list are the names seen.
  ghost predicate Prefix(names: seq<Bytes>, index: nat, seen: set<Bytes>) {
    index <= |names| && seen == set i | 0 <= i < index :: names[i]
  }

  lemma PrefixNone(names: seq<Bytes>)
    ensures Prefix(names, 0, {})
  {
  }

  lemma PrefixClashes(names: seq<Bytes>, index: nat, seen: set<Bytes>, name: Bytes)
    requires Prefix(names, index, seen)
    ensures Clashes(seen, name) <==> exists i :: 0 <= i < index && EqualFold(names[i], name)
  {
    hide EqualFold;
  }

  lemma PrefixAdds(names: seq<Bytes>, index: nat, seen: set<Bytes>, name: Bytes)
    requires Prefix(names, index, seen) && index < |names|
    ensures Prefix(names[index := name], index + 1, seen + {name})
  {
    var t := names[index := name];
    assert t[index] == name;
    forall n | n in seen ensures n in set i | 0 <= i < index + 1 :: t[i] {
      var i :| 0 <= i < index && names[i] == n;
      assert t[i] == n;
    }
  }

  method ValidateBoundedHeaders(headers: Headers, maxBytes: int) returns (verdict: Verdict)
    requires maxBytes >= 0 && |headers| <= 64
    ensures Explains(headers, |headers|, maxBytes, verdict)
  {
    hide Passed, Explains, ValidName, ValidValue, EqualFold, Clashes, Probeable, Occupied, Names;
    var names := new Bytes[SLOTS](i => []);
    EmptyTable(names[..]);
    var todo := headers.Keys;
    ghost var seen: set<Bytes> := {};
    var totalBytes := 0;
    FirstPassed(headers, maxBytes);
    assert |headers.Keys| == |headers|;
    while todo != {}
      invariant Passed(headers, todo, seen, maxBytes, totalBytes)
      invariant Probeable(names[..]) && Names(names[..]) == seen && Occupied(names[..]) + |todo| <= 64
    {
      var name :| name in todo;
      NextPassed(headers, todo, seen, maxBytes, totalBytes, name);
      var ok := ValidHeader(headers, name);
      if !ok {
        return InvalidHeader;
      }
      NotEmpty(name);
      TableClashes(seen, name);
      var inserted := InsertFoldedHeaderName(names, name);
      if !inserted {
        return InvalidHeader;
      }
      var measured, sum := Measure(headers, name, maxBytes, totalBytes);
      if !measured.Accepted? {
        return TooLarge;
      }
      todo := todo - {name};
      seen := seen + {name};
      totalBytes := sum;
    }
    AllPassed(headers, seen, maxBytes, totalBytes);
    return Accepted;
  }

  lemma TableClashes(seen: set<Bytes>, name: Bytes)
    ensures Clashes(seen, name) <==> !forall n :: n in seen ==> !EqualFold(n, name)
  {
  }

  lemma EmptyTable(table: seq<Bytes>)
    requires |table| == SLOTS && forall i :: 0 <= i < SLOTS ==> table[i] == []
    ensures Probeable(table) && Names(table) == {} && Occupied(table) == 0
  {
    NoneOccupied(table);
  }

  lemma {:induction false} NoneOccupied(table: seq<Bytes>)
    requires forall i :: 0 <= i < |table| ==> table[i] == []
    ensures Occupied(table) == 0
  {
    if table != [] {
      NoneOccupied(table[..|table| - 1]);
    }
  }

  // No or one header, or more than 64: names are normalised and kept in a map.
  method ValidateMapped(headers: Headers, maxBytes: int) returns (verdict: Verdict)
    requires maxBytes >= 0 && (|headers| < 2 || |headers| > 64)
    ensures Explains(headers, |headers|, maxBytes, verdict)
  {
    hide Passed, Explains, ValidName, ValidValue, Clashes, Fold, Normalized;
    var normalized: set<Bytes> := {};
    var todo := headers.Keys;
    ghost var seen: set<Bytes> := {};
    var totalBytes := 0;
    FirstPassed(headers, maxBytes);
    NothingNormalized();
    while todo != {}
      invariant Passed(headers, todo, seen, maxBytes, totalBytes)
      invariant |headers| > 2 ==> normalized == Normalized(seen)
    {
      var name :| name in todo;
      NextPassed(headers, todo, seen, maxBytes, totalBytes, name);
      SingleDoesNotClash(headers, seen, name);
      NormalizedClashes(seen, name);
      var ok := ValidHeader(headers, name);
      if !ok {
        return InvalidHeader;
      }
      if |headers| > 2 {
        if Fold(name) in normalized {
          return InvalidHeader;
        }
        normalized := normalized + {Fold(name)};
      }
      var measured, sum := Measure(headers, name, maxBytes, totalBytes);
      if !measured.Accepted? {
        return TooLarge;
      }
      todo := todo - {name};
      seen := seen + {name};
      totalBytes := sum;
    }
    AllPassed(headers, seen, maxBytes, totalBytes);
    return Accepted;
  }

  ghost function Normalized(names: set<Bytes>): set<Bytes> {
    set n | n in names :: Fold(n)
  }

  lemma NothingNormalized()
    ensures Normalized({}) == {}
  {
  }

  lemma NormalizedClashes(seen: set<Bytes>, name: Bytes)
    ensures Clashes(seen, name) <==> Fold(name) in Normalized(seen)
    ensures Normalized(seen + {name}) == Normalized(seen) + {Fold(name)}
  {
    hide Fold;
  }

  lemma SingleDoesNotClash(headers: Headers, seen: set<Bytes>, name: Bytes)
    requires seen <= headers.Keys && name in headers && name !in seen
    ensures |headers| < 2 ==> !Clashes(seen, name)
  {
    forall n | n in seen ensures |headers| >= 2 {
      SubsetSize({n, name}, headers.Keys);
      assert |headers.Keys| == |headers|;
    }
  }
}
