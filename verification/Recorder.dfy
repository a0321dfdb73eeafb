// The sensor recorder: a value becomes a new record only when it leaves the dead
// band around the record in force; the newest fifty records are kept.

module Recorder {

  /** CBufferData without its dates. */
  datatype Record = Record(id: nat, data: real, current: real, isAlert: bool)

  /** CTextPattern: its name and mDiffNotSave. */
  datatype Pattern = Pattern(name: string, diffNotSave: real)

  const MAX_RECORDS := 50

  // std::numeric_limits: 2^-52 for double, 2^-23 for float
  const EPSILON_DOUBLE := 1.0 / 4503599627370496.0
  const EPSILON_FLOAT := 1.0 / 8388608.0

  function Abs(x: real): real { if x < 0.0 then -x else x }

  /** Is `data` outside the band around the value in force? */
  predicate OutOfBand(inForce: real, diffNotSave: real, data: real) {
    var diff := Abs(inForce - data);
    diff > EPSILON_DOUBLE && (diffNotSave < EPSILON_FLOAT || diff >= diffNotSave)
  }

  /** Does `data` become a record of its own after `list`? */
  predicate Leaves(list: seq<Record>, diffNotSave: real, data: real) {
    list == [] || OutOfBand(list[|list| - 1].data, diffNotSave, data)
  }

  /** A list and the next free id, which all patterns share. */
  datatype Book = Book(list: seq<Record>, nextId: nat)

  /** The last record, which stays in force. */
  function Updated(b: Book, data: real, isAlert: bool): Record
    requires b.list != []
  {
    var last := b.list[|b.list| - 1].(current := data);
    if isAlert then last.(id := b.nextId) else last
  }

  /** append before the list is cut to size. */
  function Written(b: Book, diffNotSave: real, data: real, isAlert: bool): Book {
    if Leaves(b.list, diffNotSave, data) then
      Book(b.list + [Record(b.nextId, data, data, isAlert)], b.nextId + 1)
    else
      Book(b.list[|b.list| - 1 := Updated(b, data, isAlert)], if isAlert then b.nextId + 1 else b.nextId)
  }

  /** CTextBuffer::append */
  function Appended(b: Book, diffNotSave: real, data: real, isAlert: bool): Book {
    var w := Written(b, diffNotSave, data, isAlert);
    if |w.list| > MAX_RECORDS then w.(list := w.list[1..]) else w
  }

  /** skipped counts the ids that other patterns took before this value came. */
  datatype Input = Input(data: real, isAlert: bool, skipped: nat)

  function Skip(b: Book, n: nat): Book { b.(nextId := b.nextId + n) }

  /** The recording that never drops a record. */
  function Unbounded(b: Book, diffNotSave: real, ins: seq<Input>): Book {
    if ins == [] then b
    else
      var i := ins[|ins| - 1];
      Written(Skip(Unbounded(b, diffNotSave, ins[..|ins| - 1]), i.skipped), diffNotSave, i.data, i.isAlert)
  }

  function Bounded(b: Book, diffNotSave: real, ins: seq<Input>): Book {
    if ins == [] then b
    else
      var i := ins[|ins| - 1];
      Appended(Skip(Bounded(b, diffNotSave, ins[..|ins| - 1]), i.skipped), diffNotSave, i.data, i.isAlert)
  }

  function LastFifty(list: seq<Record>): seq<Record> {
    if |list| <= 50 then list else list[|list| - 50..]
  }

  // ---- whole recordings ----

  predicate IdsClimb(b: Book) {
    && (forall i :: 0 <= i < |b.list| ==> b.list[i].id < b.nextId)
    && (forall i, j :: 0 <= i < j < |b.list| ==> b.list[i].id < b.list[j].id)
  }

  predicate FarApart(list: seq<Record>, D: real) {
    forall i :: 0 < i < |list| ==> ApartAt(list, i, D)
  }

  predicate ApartAt(list: seq<Record>, i: nat, D: real)
    requires 0 < i < |list|
  {
    Abs(list[i - 1].data - list[i].data) >= D
  }

  /** The width of the band a value may stay in without a record of its own. */
  function Band(diffNotSave: real): real {
    if diffNotSave < EPSILON_FLOAT then EPSILON_DOUBLE else diffNotSave
  }

  lemma WrittenKeeps(b: Book, diffNotSave: real, i: Input)
    requires IdsClimb(b) && FarApart(b.list, Band(diffNotSave))
    ensures var w := Written(Skip(b, i.skipped), diffNotSave, i.data, i.isAlert);
            && IdsClimb(w) && FarApart(w.list, Band(diffNotSave))
            && w.list != [] && w.list[|w.list| - 1].current == i.data
            && Abs(w.list[|w.list| - 1].data - i.data) <= Band(diffNotSave)
            && (diffNotSave >= EPSILON_FLOAT ==> Abs(w.list[|w.list| - 1].data - i.data) < diffNotSave)
            && |b.list| <= |w.list| <= |b.list| + 1
  {
    var s := Skip(b, i.skipped);
    var w := Written(s, diffNotSave, i.data, i.isAlert);
    forall k | 0 < k < |w.list| ensures ApartAt(w.list, k, Band(diffNotSave)) {
      assert k < |b.list| ==> ApartAt(b.list, k, Band(diffNotSave));
    }
  }

  /** Every recording has strictly growing ids and neighbours at least the band
      apart, and the value just recorded lies within the band of the last record. */
  lemma {:induction false} RecordingIsSound(nextId: nat, diffNotSave: real, ins: seq<Input>)
    ensures var b := Unbounded(Book([], nextId), diffNotSave, ins);
            && IdsClimb(b) && FarApart(b.list, Band(diffNotSave))
            && (ins != [] ==>
                  b.list != [] && var data := ins[|ins| - 1].data;
                  Abs(b.list[|b.list| - 1].data - data) <= Band(diffNotSave)
                  && b.list[|b.list| - 1].current == data)
  {
    if ins != [] {
      var init := ins[..|ins| - 1];
      RecordingIsSound(nextId, diffNotSave, init);
      WrittenKeeps(Unbounded(Book([], nextId), diffNotSave, init), diffNotSave, ins[|ins| - 1]);
    }
  }

  /** With a real dead band every value is strictly inside it. */
  lemma {:induction false} InsideTheBand(nextId: nat, diffNotSave: real, ins: seq<Input>)
    requires diffNotSave >= EPSILON_FLOAT && ins != []
    ensures var list := Unbounded(Book([], nextId), diffNotSave, ins).list;
            list != [] && Abs(list[|list| - 1].data - ins[|ins| - 1].data) < diffNotSave
  {
    var init := ins[..|ins| - 1];
    RecordingIsSound(nextId, diffNotSave, init);
    WrittenKeeps(Unbounded(Book([], nextId), diffNotSave, init), diffNotSave, ins[|ins| - 1]);
  }

  /** The dead-band filter on its own: the inputs that are outside the band around the
      last one kept. */
  function Filtered(diffNotSave: real, ins: seq<Input>): seq<Input> {
    if ins == [] then []
    else
      var kept, x := Filtered(diffNotSave, ins[..|ins| - 1]), ins[|ins| - 1];
      if kept == [] || OutOfBand(kept[|kept| - 1].data, diffNotSave, x.data) then kept + [x] else kept
  }

  /** Ids used up by a recording: one for each record, one for each alert that stays
      inside the band, and those that other patterns took. */
  function IdsUsed(diffNotSave: real, ins: seq<Input>): nat {
    if ins == [] then 0
    else
      var init, x := ins[..|ins| - 1], ins[|ins| - 1];
      IdsUsed(diffNotSave, init) + x.skipped
      + if |Filtered(diffNotSave, ins)| > |Filtered(diffNotSave, init)| || x.isAlert then 1 else 0
  }

  predicate RecordsOf(list: seq<Record>, kept: seq<Input>) {
    |list| == |kept| &&
    forall i :: 0 <= i < |list| ==> list[i].data == kept[i].data && list[i].isAlert == kept[i].isAlert
  }

  /** The records are the filtered inputs: each with its own value, marked as an alert
      exactly when the input that made it was one. */
  lemma {:induction false} RecordsAreFiltered(nextId: nat, diffNotSave: real, ins: seq<Input>)
    ensures var b := Unbounded(Book([], nextId), diffNotSave, ins);
            RecordsOf(b.list, Filtered(diffNotSave, ins)) && b.nextId == nextId + IdsUsed(diffNotSave, ins)
  {
    if ins != [] {
      RecordsAreFiltered(nextId, diffNotSave, ins[..|ins| - 1]);
    }
  }

  /** Dropping records never changes what is recorded: the bounded list is always
      the last fifty of the unbounded recording. */
  lemma {:induction false} BoundedIsLastFifty(nextId: nat, diffNotSave: real, ins: seq<Input>)
    ensures var u, b := Unbounded(Book([], nextId), diffNotSave, ins),
                        Bounded(Book([], nextId), diffNotSave, ins);
            b.list == LastFifty(u.list) && b.nextId == u.nextId
  {
    if ins != [] {
      var init, i := ins[..|ins| - 1], ins[|ins| - 1];
      BoundedIsLastFifty(nextId, diffNotSave, init);
      var u := Skip(Unbounded(Book([], nextId), diffNotSave, init), i.skipped);
      var b := Skip(Bounded(Book([], nextId), diffNotSave, init), i.skipped);
      CutCommutes(u, b, diffNotSave, i.data, i.isAlert);
    }
  }

  lemma CutCommutes(u: Book, b: Book, diffNotSave: real, data: real, isAlert: bool)
    requires b.list == LastFifty(u.list) && b.nextId == u.nextId
    ensures var w, a := Written(u, diffNotSave, data, isAlert), Appended(b, diffNotSave, data, isAlert);
            a.list == LastFifty(w.list) && a.nextId == w.nextId
  {
    SameLast(u.list);
    if Leaves(u.list, diffNotSave, data) {
      CutAppend(u.list, Record(u.nextId, data, data, isAlert));
    } else {
      CutUpdate(u.list, Updated(u, data, isAlert));
    }
  }

  lemma SameLast(list: seq<Record>)
    ensures (LastFifty(list) == []) == (list == [])
    ensures list != [] ==> LastFifty(list)[|LastFifty(list)| - 1] == list[|list| - 1]
  {
  }

  lemma CutAppend(list: seq<Record>, r: Record)
    ensures var grown := LastFifty(list) + [r];
            LastFifty(list + [r]) == if |grown| > MAX_RECORDS then grown[1..] else grown
  {
  }

  lemma CutUpdate(list: seq<Record>, r: Record)
    requires list != []
    ensures var cut := LastFifty(list);
            |cut| > 0 && LastFifty(list[|list| - 1 := r]) == cut[|cut| - 1 := r]
  {
  }

  // ---- the double append of the text algorithm ----

  /** doTextAlgo appends the value, then doTextConditions appends it again with the
      alert flag: together they add at most one record, the one a single append
      would add. A record they add is never marked as an alert; an alert only
      gives the last record a new id. */
  lemma DoubleAppendAddsOne(b: Book, diffNotSave: real, data: real, isAlert: bool)
    ensures var once := Written(b, diffNotSave, data, false);
            var twice := Written(once, diffNotSave, data, isAlert);
            var last := once.list[|once.list| - 1];
            && |twice.list| == |once.list| <= |b.list| + 1
            && twice.list == once.list[|once.list| - 1 := if isAlert then last.(id := once.nextId) else last]
            && (|once.list| > |b.list| ==> !twice.list[|twice.list| - 1].isAlert)
  {
    var once := Written(b, diffNotSave, data, false);
    assert !Leaves(once.list, diffNotSave, data);
  }

  // ---- the buffer object ----

  /** CTextBuffer together with the shared id counter of CBufferData. */
  class TextBuffer {
    var lists: map<string, seq<Record>>
    var nextId: nat

    function BookOf(name: string): Book
      reads this
    {
      Book(if name in lists then lists[name] else [], nextId)
    }

    constructor ()
      ensures lists == map[] && nextId == 1
    {
      lists, nextId := map[], 1;
    }

    method GetNextId() returns (id: nat)
      modifies this`nextId
      ensures id == old(nextId) && nextId == old(nextId) + 1
    {
      id := nextId;
      nextId := nextId + 1;
    }

    method Append(pattern: Pattern, data: real, isAlert: bool)
      modifies this
      ensures BookOf(pattern.name) == Appended(old(BookOf(pattern.name)), pattern.diffNotSave, data, isAlert)
      ensures lists.Keys == old(lists).Keys + {pattern.name}
      ensures forall name :: name in old(lists) && name != pattern.name ==> lists[name] == old(lists)[name]
    {
      var list := if pattern.name in lists then lists[pattern.name] else [];
      list := Write(list, pattern, data, isAlert);
      if |list| > MAX_RECORDS {
        list := list[1..];
      }
      lists := lists[pattern.name := list];
    }

    /** The part of append that runs before the list is cut to size. */
    method Write(list: seq<Record>, pattern: Pattern, data: real, isAlert: bool) returns (r: seq<Record>)
      modifies this`nextId
      ensures Book(r, nextId) == Written(Book(list, old(nextId)), pattern.diffNotSave, data, isAlert)
    {
      r := list;
      var isAdded := false;
      if r == [] {
        var id := GetNextId();
        r := r + [Record(id, data, data, isAlert)];
        isAdded := true;
      } else if Abs(r[|r| - 1].data - data) > EPSILON_DOUBLE {
        if pattern.diffNotSave < EPSILON_FLOAT || Abs(r[|r| - 1].data - data) >= pattern.diffNotSave {
          var id := GetNextId();
          r := r + [Record(id, data, data, isAlert)];
          isAdded := true;
        }
      }
      var last := r[|r| - 1];
      if !isAdded && isAlert {
        var id := GetNextId();
        last := last.(id := id);
      }
      r := r[|r| - 1 := last.(current := data)];
    }
  }
}
