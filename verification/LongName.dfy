/** Long file names in directory entries: 13 characters an entry, in slots of five, six and two, the
    last part of the name first. Writing them into the root directory and reading them back. */
module LongName {

  type Byte = b: nat | b < 0x100

  const LONG_NAME: Byte := 0x0F
  const FIRST_SLOT: nat := 0

  // ----- what an entry holds -----

  /** How many entries a name of n characters takes. */
  function Records(n: nat): nat { (n + 12) / 13 }

  /** rec is that number. */
  predicate Suffice(n: nat, rec: nat) { if n == 0 then rec == 0 else rec > 0 && (rec - 1) * 13 < n <= rec * 13 }

  lemma RecordsSuffice(n: nat, rec: nat)
    ensures Suffice(n, rec) <==> rec == Records(n)
  {}

  /** The part of the name in entry i, counted from 1. */
  function Part(name: seq<Byte>, i: nat): seq<Byte>
    requires 1 <= i && (i - 1) * 13 <= |name|
  {
    if i * 13 <= |name| then name[(i - 1) * 13..i * 13] else name[(i - 1) * 13..]
  }

  /** The byte where slot k begins. */
  function SlotAt(k: nat): nat { if k < 5 then 1 + 2 * k else if k < 11 then 4 + 2 * k else 6 + 2 * k }

  /** A slot holds a character and a zero byte, or two zero bytes behind the last character, or is
      unused. */
  function Low(part: seq<Byte>, k: nat): Byte { if k < |part| then part[k] else if k == |part| then 0 else 0xFF }

  function High(part: seq<Byte>, k: nat): Byte { if k <= |part| then 0 else 0xFF }

  /** The 32 bytes at p are an entry with this number and this part of a name. */
  ghost predicate IsEntry(m: seq<Byte>, p: nat, number: Byte, part: seq<Byte>) {
    && p + 32 <= |m| && m[p] == number && m[p + 11] == LONG_NAME
    && m[p + 12] == m[p + 13] == m[p + 26] == m[p + 27] == 0
    && forall k :: 0 <= k < 13 ==> SlotIs(m, p, part, k)
  }

  ghost predicate SlotIs(m: seq<Byte>, p: nat, part: seq<Byte>, k: nat)
    requires p + 32 <= |m|
  {
    k < 13 ==> m[p + SlotAt(k)] == Low(part, k) && m[p + SlotAt(k) + 1] == High(part, k)
  }

  function Number(i: nat, rec: nat): nat { if i == rec then 0x40 + rec else i }

  /** Entries i, i - 1, .. 1 of the name, in that order from p on, when it takes rec of them. */
  ghost predicate HasEntries(m: seq<Byte>, p: nat, name: seq<Byte>, i: nat, rec: nat)
    requires i <= rec && Suffice(|name|, rec)
    decreases i
  {
    i > 0 ==>
      Number(i, rec) < 0x100 && IsEntry(m, p, Number(i, rec), Part(name, i)) && HasEntries(m, p + 32, name, i - 1, rec)
  }

  // ----- the bytes of the entries -----

  /** Where the thirteen characters are in an entry. */
  const PLACES: seq<nat> := [1, 3, 5, 7, 9, 14, 16, 18, 20, 22, 24, 28, 30]

  /** The 32 bytes at q are entry i of a name that takes rec: its number, with 64 added on the last part,
      the attribute 15, and in each place a character and a zero, then one zero pair, then 255s. */
  ghost predicate EntryBytes(m: seq<Byte>, q: nat, name: seq<Byte>, i: nat, rec: nat) {
    && i > 0 && q + 32 <= |m|
    && m[q] == (if i == rec then 64 + rec else i) && m[q + 11] == 15
    && m[q + 12] == m[q + 13] == m[q + 26] == m[q + 27] == 0
    && forall k :: 0 <= k < 13 ==>
         var n := 13 * (i - 1) + k;
         && m[q + PLACES[k]] == (if n < |name| then name[n] else if n == |name| then 0 else 255)
         && m[q + PLACES[k] + 1] == if n <= |name| then 0 else 255
  }

  lemma SlotPlaces(k: nat)
    requires k < 13
    ensures SlotAt(k) == PLACES[k] <= 30
  {}

  lemma EntryInBytes(m: seq<Byte>, q: nat, name: seq<Byte>, i: nat, rec: nat)
    requires 1 <= i <= rec && Suffice(|name|, rec) && Number(i, rec) < 0x100
    requires IsEntry(m, q, Number(i, rec), Part(name, i))
    ensures EntryBytes(m, q, name, i, rec)
  {
    var part := Part(name, i);
    PartsJoin(name, i, rec);
    forall k | 0 <= k < 13
      ensures var n := 13 * (i - 1) + k;
              && m[q + PLACES[k]] == (if n < |name| then name[n] else if n == |name| then 0 else 255)
              && m[q + PLACES[k] + 1] == if n <= |name| then 0 else 255
    {
      SlotPlaces(k);
      assert SlotIs(m, q, part, k);
      if k < |part| { assert part[k] == name[13 * (i - 1) + k]; }
    }
  }

  /** The entries of a name, in bytes: the last part first, each 32 bytes behind the one before. */
  lemma {:induction false} EntriesInBytes(m: seq<Byte>, p: nat, name: seq<Byte>, i: nat, rec: nat, j: nat)
    requires 1 <= j <= i <= rec && Suffice(|name|, rec) && HasEntries(m, p, name, i, rec)
    ensures EntryBytes(m, p + 32 * (i - j), name, j, rec)
    decreases i
  {
    hide EntryBytes, IsEntry;
    if i == j { EntryInBytes(m, p, name, i, rec); } else { EntriesInBytes(m, p + 32, name, i - 1, rec, j); }
  }

  // ----- reading -----

  /** The characters of an entry from slot k on, up to a zero. */
  function Section(m: seq<Byte>, p: nat, k: nat): seq<Byte>
    requires p + 32 <= |m|
    decreases 13 - k
  {
    if k >= 13 || m[p + SlotAt(k)] == 0 then [] else [m[p + SlotAt(k)]] + Section(m, p, k + 1)
  }

  /** getLFN: the name, and the place of the first entry that is no part of one. */
  function ReadName(m: seq<Byte>, p: nat): (seq<Byte>, nat)
    decreases |m| - p
  {
    if p + 32 <= |m| && m[p + 11] == LONG_NAME then
      var r := ReadName(m, p + 32); (r.0 + Section(m, p, FIRST_SLOT), r.1)
    else ([], p)
  }

  predicate NoZero(s: seq<Byte>) { forall i :: 0 <= i < |s| ==> s[i] != 0 }

  lemma {:induction false} SectionIsPart(m: seq<Byte>, p: nat, number: Byte, part: seq<Byte>, k: nat)
    requires IsEntry(m, p, number, part) && NoZero(part) && k <= |part| <= 13
    ensures Section(m, p, k) == part[k..]
    decreases 13 - k
  {
    if k < 13 {
      assert SlotIs(m, p, part, k);
      if k < |part| {
        SectionIsPart(m, p, number, part, k + 1);
        assert part[k..] == [part[k]] + part[k + 1..];
      }
    }
  }

  /** The name up to the end of part i. */
  function UpTo(name: seq<Byte>, i: nat): seq<Byte> { if i * 13 <= |name| then name[..i * 13] else name }

  lemma UpToAll(name: seq<Byte>, rec: nat)
    requires Suffice(|name|, rec)
    ensures UpTo(name, rec) == name
  {
    if rec * 13 <= |name| { assert name[..rec * 13] == name; }
  }

  lemma PartsJoin(name: seq<Byte>, i: nat, rec: nat)
    requires 0 < i <= rec && Suffice(|name|, rec)
    ensures (i - 1) * 13 < |name| && 0 < |Part(name, i)| <= 13
    ensures UpTo(name, i - 1) + Part(name, i) == UpTo(name, i)
  {}

  lemma PartHasNoZero(name: seq<Byte>, i: nat)
    requires 1 <= i && (i - 1) * 13 <= |name| && NoZero(name)
    ensures NoZero(Part(name, i))
  {
    forall k | 0 <= k < |Part(name, i)| ensures Part(name, i)[k] != 0 {
      assert Part(name, i)[k] == name[(i - 1) * 13 + k];
    }
  }

  lemma ReadOne(m: seq<Byte>, p: nat, number: Byte, part: seq<Byte>)
    requires IsEntry(m, p, number, part) && NoZero(part) && |part| <= 13
    ensures ReadName(m, p) == (ReadName(m, p + 32).0 + part, ReadName(m, p + 32).1)
  {
    SectionIsPart(m, p, number, part, FIRST_SLOT);
    assert part[FIRST_SLOT..] == part;
  }

  /** Reading the entries of a name, down from entry i, gives the name up to there. */
  lemma {:induction false} ReadEntries(m: seq<Byte>, p: nat, name: seq<Byte>, i: nat, rec: nat, end: nat)
    requires i <= rec && Suffice(|name|, rec) && NoZero(name) && HasEntries(m, p, name, i, rec)
    requires end == p + 32 * i && (end + 32 > |m| || m[end + 11] != LONG_NAME)
    ensures ReadName(m, p) == (UpTo(name, i), end)
    decreases i
  {
    if i > 0 {
      PartsJoin(name, i, rec);
      PartHasNoZero(name, i);
      ReadOne(m, p, Number(i, rec), Part(name, i));
      ReadEntries(m, p + 32, name, i - 1, rec, end);
    }
  }

  /** A name, written and read back, is the same name; reading stops behind its last entry. */
  lemma NameRoundTrip(m: seq<Byte>, p: nat, name: seq<Byte>, rec: nat)
    requires Suffice(|name|, rec) && NoZero(name) && HasEntries(m, p, name, rec, rec)
    requires p + 32 * rec + 32 > |m| || m[p + 32 * rec + 11] != LONG_NAME
    ensures ReadName(m, p) == (name, p + 32 * rec)
  {
    ReadEntries(m, p, name, rec, rec, p + 32 * rec);
    UpToAll(name, rec);
  }

  // ----- writing -----

  /** Only the 32 bytes at p differ. */
  ghost predicate OnlyAt(m: seq<Byte>, p: nat, n: nat, m': seq<Byte>) {
    |m'| == |m| && forall j :: 0 <= j < |m| && !(p <= j < p + n) ==> m'[j] == m[j]
  }

  /** One of the three loops of createLFN over an entry: slots from..to get their characters. The
      number of characters left goes down with each, and behind the last one a zero is written
      once. */
  method FillSlots(m: array<Byte>, p: nat, name: seq<Byte>, i: nat, from: nat, to: nat, numChar: nat, endName: bool,
        zeroed: bool)
    returns (numChar': nat, endName': bool, zeroed': bool)
    requires p + 32 <= m.Length && from <= to <= 13 && 1 <= i && (i - 1) * 13 < |name|
    requires (from == 0 && to == 5) || (from == 5 && to == 11) || (from == 11 && to == 13)
    requires Progress(m[..], p, Part(name, i), from, numChar, endName, zeroed)
    modifies m
    ensures OnlyAt(old(m[..]), p, 32, m[..]) && KeepsHead(old(m[..]), p, m[..])
    ensures Progress(m[..], p, Part(name, i), to, numChar', endName', zeroed')
  {
    numChar', endName', zeroed' := numChar, endName, zeroed;
    ghost var part, before := Part(name, i), m[..];
    for k := from to to
      invariant OnlyAt(before, p, 32, m[..]) && KeepsHead(before, p, m[..])
      invariant Progress(m[..], p, part, k, numChar', endName', zeroed')
    {
      var j := SlotAt(k);
      ghost var was := m[..];
      if endName' {
        if !zeroed' {
          m[p + j], m[p + j + 1] := 0, 0;
          zeroed' := true;
          Closed(was, p, part, k, m[..], to);
        } else {
          StaysClosed(m[..], p, part, k, to, numChar');
        }
        break;
      }
      m[p + j], m[p + j + 1] := name[(i - 1) * 13 + k], 0;
      numChar' := numChar' - 1;
      if numChar' == 0 { endName' := true; }
      Filled(was, p, part, k, m[..], numChar', endName');
    }
  }

  /** What the number, the attribute and the fixed bytes are, they stay. */
  ghost predicate KeepsHead(m: seq<Byte>, p: nat, m': seq<Byte>) {
    && |m'| == |m| && p + 32 <= |m|
    && m'[p] == m[p] && m'[p + 11] == m[p + 11] && m'[p + 12] == m[p + 12] && m'[p + 13] == m[p + 13]
    && m'[p + 26] == m[p + 26] && m'[p + 27] == m[p + 27]
  }

  /** Slots below k are done, and the three variables say how far the name has gone. Once the zero
      is written nothing more changes. */
  ghost predicate Progress(m: seq<Byte>, p: nat, part: seq<Byte>, k: nat, numChar: nat, endName: bool, zeroed: bool) {
    && p + 32 <= |m| && k <= 13 && 0 < |part| <= 13
    && numChar == (if k < |part| then |part| - k else 0)
    && (endName <==> k >= |part|) && (zeroed ==> k >= |part|) && (k > |part| ==> zeroed)
    && forall s :: 0 <= s < 13 ==> SlotDone(m, p, part, s, k, zeroed)
  }

  ghost predicate SlotDone(m: seq<Byte>, p: nat, part: seq<Byte>, s: nat, k: nat, zeroed: bool)
    requires p + 32 <= |m|
  {
    if s >= 13 then true
    else if s < k && s < |part| then m[p + SlotAt(s)] == part[s] && m[p + SlotAt(s) + 1] == 0
    else if zeroed && s == |part| then m[p + SlotAt(s)] == m[p + SlotAt(s) + 1] == 0
    else m[p + SlotAt(s)] == m[p + SlotAt(s) + 1] == 0xFF
  }

  lemma SlotsApart(s: nat, k: nat)
    requires s < 13 && k < 13 && s != k
    ensures SlotAt(s) + 1 < SlotAt(k) || SlotAt(k) + 1 < SlotAt(s)
    ensures SlotAt(k) < 31 && SlotAt(k) != 0 && !(11 <= SlotAt(k) + 1 && SlotAt(k) <= 13)
            && !(26 <= SlotAt(k) + 1 && SlotAt(k) <= 27)
  {}

  /** Slots other than k are as they were when only slot k was written. */
  lemma OthersStay(m: seq<Byte>, p: nat, k: nat, m': seq<Byte>, s: nat)
    requires p + 32 <= |m| && k < 13 && s < 13 && s != k && OnlyAt(m, p + SlotAt(k), 2, m')
    ensures m'[p + SlotAt(s)] == m[p + SlotAt(s)] && m'[p + SlotAt(s) + 1] == m[p + SlotAt(s) + 1]
  {
    SlotsApart(s, k);
  }

  lemma Filled(m: seq<Byte>, p: nat, part: seq<Byte>, k: nat, m': seq<Byte>, numChar: nat, endName: bool)
    requires k < |part| && Progress(m, p, part, k, |part| - k, false, false) && OnlyAt(m, p + SlotAt(k), 2, m')
    requires m'[p + SlotAt(k)] == part[k] && m'[p + SlotAt(k) + 1] == 0
    requires numChar == |part| - k - 1 && endName == (numChar == 0)
    ensures Progress(m', p, part, k + 1, numChar, endName, false)
  {
    var next := k + 1;
    forall s | 0 <= s < 13 ensures SlotDone(m', p, part, s, next, false) {
      assert SlotDone(m, p, part, s, k, false);
      if s != k { OthersStay(m, p, k, m', s); }
    }
  }

  lemma Closed(m: seq<Byte>, p: nat, part: seq<Byte>, k: nat, m': seq<Byte>, to: nat)
    requires k < to <= 13 && Progress(m, p, part, k, 0, true, false) && OnlyAt(m, p + SlotAt(k), 2, m')
    requires m'[p + SlotAt(k)] == 0 && m'[p + SlotAt(k) + 1] == 0
    ensures Progress(m', p, part, to, 0, true, true)
  {
    forall s | 0 <= s < 13 ensures SlotDone(m', p, part, s, to, true) {
      assert SlotDone(m, p, part, s, k, false);
      if s != k { OthersStay(m, p, k, m', s); }
    }
  }

  lemma StaysClosed(m: seq<Byte>, p: nat, part: seq<Byte>, k: nat, to: nat, numChar: nat)
    requires k < to <= 13 && Progress(m, p, part, k, numChar, true, true)
    ensures Progress(m, p, part, to, numChar, true, true)
  {
    forall s | 0 <= s < 13 ensures SlotDone(m, p, part, s, to, true) { assert SlotDone(m, p, part, s, k, true); }
  }

  // ----- createLFN and getLFN -----

  ghost predicate HeadIs(m: seq<Byte>, p: nat, number: Byte) {
    && p + 32 <= |m| && m[p] == number && m[p + 11] == LONG_NAME
    && m[p + 12] == m[p + 13] == m[p + 26] == m[p + 27] == 0
  }

  ghost predicate Blank(m: seq<Byte>, p: nat)
    requires p + 32 <= |m|
  {
    forall k :: 0 <= k < 13 ==> m[p + SlotAt(k)] == m[p + SlotAt(k) + 1] == 0xFF
  }

  /** An entry's number and fixed bytes, and 0xFF in every place for a character. */
  method PrepareEntry(m: array<Byte>, p: nat, number: Byte)
    requires p + 32 <= m.Length
    modifies m
    ensures OnlyAt(old(m[..]), p, 32, m[..]) && HeadIs(m[..], p, number) && Blank(m[..], p)
  {
    m[p] := number;
    m[p + 11] := LONG_NAME;
    m[p + 12], m[p + 13], m[p + 26], m[p + 27] := 0, 0, 0, 0;
    Ones(m, p, 1, 11);
    Ones(m, p, 14, 26);
    Ones(m, p, 28, 32);
  }

  method Ones(m: array<Byte>, p: nat, from: nat, to: nat)
    requires from <= to <= 32 && p + 32 <= m.Length
    modifies m
    ensures forall j :: 0 <= j < m.Length ==> m[j] == if p + from <= j < p + to then 0xFF else old(m[j])
  {
    for k := from to to
      invariant forall j :: 0 <= j < m.Length ==> m[j] == if p + from <= j < p + k then 0xFF else old(m[j])
    {
      m[p + k] := 0xFF;
    }
  }

  lemma FullProgress(m: seq<Byte>, p: nat, part: seq<Byte>, number: Byte, numChar: nat, endName: bool, zeroed: bool)
    requires HeadIs(m, p, number) && Progress(m, p, part, 13, numChar, endName, zeroed)
    ensures IsEntry(m, p, number, part)
  {
    forall k | 0 <= k < 13 ensures SlotIs(m, p, part, k) { assert SlotDone(m, p, part, k, 13, zeroed); }
  }

  lemma BlankProgress(m: seq<Byte>, p: nat, part: seq<Byte>)
    requires p + 32 <= |m| && Blank(m, p) && 0 < |part| <= 13
    ensures Progress(m, p, part, 0, |part|, false, false)
  {
    forall s | 0 <= s < 13 ensures SlotDone(m, p, part, s, 0, false) {}
  }

  /** One round of createLFN: entry i, with the number of characters still to place. */
  method WriteEntry(m: array<Byte>, p: nat, name: seq<Byte>, i: nat, rec: nat, numChar: nat)
    requires p + 32 <= m.Length && 0 < i <= rec && Suffice(|name|, rec) && Number(i, rec) < 0x100
    requires numChar == |Part(name, i)|
    modifies m
    ensures OnlyAt(old(m[..]), p, 32, m[..]) && IsEntry(m[..], p, Number(i, rec), Part(name, i))
  {
    ghost var part := Part(name, i);
    PartsJoin(name, i, rec);
    PrepareEntry(m, p, Number(i, rec));
    BlankProgress(m[..], p, part);
    var left, endName, zeroed := FillSlots(m, p, name, i, 0, 5, numChar, false, false);
    left, endName, zeroed := FillSlots(m, p, name, i, 5, 11, left, endName, zeroed);
    left, endName, zeroed := FillSlots(m, p, name, i, 11, 13, left, endName, zeroed);
    FullProgress(m[..], p, part, Number(i, rec), left, endName, zeroed);
  }

  lemma EntryStays(m: seq<Byte>, m': seq<Byte>, p: nat, number: Byte, part: seq<Byte>)
    requires IsEntry(m, p, number, part) && |m'| == |m| && forall j :: p <= j < p + 32 ==> m'[j] == m[j]
    ensures IsEntry(m', p, number, part)
  {
    forall k | 0 <= k < 13 ensures SlotIs(m', p, part, k) { assert SlotIs(m, p, part, k); }
  }

  /** The place of entry i when entry rec is at p. */
  function EntryAt(p: nat, i: nat, rec: nat): nat
    requires i <= rec
  {
    p + 32 * (rec - i)
  }

  ghost predicate EntryWritten(m: seq<Byte>, p: nat, name: seq<Byte>, i: nat, rec: nat)
    requires i <= rec && Suffice(|name|, rec)
  {
    i > 0 ==> Number(i, rec) < 0x100 && IsEntry(m, EntryAt(p, i, rec), Number(i, rec), Part(name, i))
  }

  lemma {:induction false} AllWritten(m: seq<Byte>, p: nat, name: seq<Byte>, i: nat, rec: nat)
    requires i <= rec && Suffice(|name|, rec) && forall t :: 0 < t <= i ==> EntryWritten(m, p, name, t, rec)
    ensures HasEntries(m, EntryAt(p, i, rec), name, i, rec)
    decreases i
  {
    if i > 0 {
      assert EntryWritten(m, p, name, i, rec);
      AllWritten(m, p, name, i - 1, rec);
      assert EntryAt(p, i - 1, rec) == EntryAt(p, i, rec) + 32;
    }
  }

  /** createLFN: the entries of a name from p on; the place behind them is returned. */
  method CreateLfn(m: array<Byte>, p: nat, name: seq<Byte>) returns (q: nat)
    requires |name| <= 255 && p + 32 * Records(|name|) <= m.Length
    modifies m
    ensures q == p + 32 * Records(|name|) && Suffice(|name|, Records(|name|))
    ensures HasEntries(m[..], p, name, Records(|name|), Records(|name|))
    ensures OnlyAt(old(m[..]), p, q - p, m[..])
  {
    hide Part;
    var rec, length := Records(|name|), |name|;
    RecordsSuffice(|name|, rec);
    q := p;
    var i := rec;
    while i > 0
      invariant 0 <= i <= rec && q == EntryAt(p, i, rec) && OnlyAt(old(m[..]), p, q - p, m[..])
      invariant length == (if i == rec then |name| else i * 13)
      invariant forall t :: i < t <= rec ==> EntryWritten(m[..], p, name, t, rec)
    {
      PartsJoin(name, i, rec);
      ghost var before := m[..];
      // every character placed lowers length by one
      var numChar := length - (i - 1) * 13;
      WriteEntry(m, q, name, i, rec, numChar);
      length := length - numChar;
      forall t | i < t <= rec ensures EntryWritten(m[..], p, name, t, rec) {
        assert EntryWritten(before, p, name, t, rec);
        EntryStays(before, m[..], EntryAt(p, t, rec), Number(t, rec), Part(name, t));
      }
      q := q + 32;
      i := i - 1;
    }
    AllWritten(m[..], p, name, rec, rec);
  }

  /** getLFN: long-name entries are read from p on, each one's characters put in front; the place
      of the first other entry is returned. */
  method GetLfn(m: array<Byte>, p: nat) returns (name: seq<Byte>, q: nat)
    requires ReadName(m[..], p).1 + 32 <= m.Length
    ensures (name, q) == ReadName(m[..], p)
  {
    name, q := [], p;
    ghost var mem, all := m[..], ReadName(m[..], p);
    ReadStays(mem, p);
    assert all.0 == all.0 + name;
    while m[q + 11] == LONG_NAME
      invariant q <= all.1 && all.1 + 32 <= m.Length && ReadName(mem, q).1 == all.1
      invariant all.0 == ReadName(mem, q).0 + name
      decreases m.Length - q
    {
      var section := ReadSection(m, q);
      ReadStays(mem, q + 32);
      NameStep(mem, q, name);
      name := section + name;
      q := q + 32;
    }
    assert [] + name == name;
  }

  lemma NameStep(m: seq<Byte>, q: nat, name: seq<Byte>)
    requires q + 32 <= |m| && m[q + 11] == LONG_NAME
    ensures ReadName(m, q).0 + name == ReadName(m, q + 32).0 + (Section(m, q, FIRST_SLOT) + name)
    ensures ReadName(m, q).1 == ReadName(m, q + 32).1
  {
    var a, b := ReadName(m, q + 32).0, Section(m, q, FIRST_SLOT);
    assert (a + b) + name == a + (b + name);
  }

  lemma {:induction false} ReadStays(m: seq<Byte>, p: nat)
    ensures p <= ReadName(m, p).1
    decreases |m| - p
  {
    if p + 32 <= |m| && m[p + 11] == LONG_NAME { ReadStays(m, p + 32); }
  }

  /** The characters of one entry, up to a zero. */
  method ReadSection(m: array<Byte>, p: nat) returns (section: seq<Byte>)
    requires p + 32 <= m.Length
    ensures section == Section(m[..], p, FIRST_SLOT)
  {
    section := [];
    for k := 0 to 13
      invariant Section(m[..], p, FIRST_SLOT) == section + Section(m[..], p, k)
    {
      if m[p + SlotAt(k)] == 0 { return; }
      section := section + [m[p + SlotAt(k)]];
    }
  }

  /** Writing a name and reading it back, with any entry that is no long name behind. */
  method WriteThenRead(m: array<Byte>, p: nat, name: seq<Byte>) returns (back: seq<Byte>, q: nat)
    requires 0 < |name| <= 255 && NoZero(name) && p + 32 * Records(|name|) + 32 <= m.Length
    requires m[p + 32 * Records(|name|) + 11] != LONG_NAME
    modifies m
    ensures back == name && q == p + 32 * Records(|name|)
  {
    var end := CreateLfn(m, p, name);
    NameRoundTrip(m[..], p, name, Records(|name|));
    back, q := GetLfn(m, p);
  }
}
