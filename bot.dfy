/**
 * The message routing of scripts/telegramBot.py. A run fetches the
 * updates after the saved cursor, collects their texts, then splits them
 * on the substring "DELETE": the others are parsed and stored, the marked
 * ones have the marker replaced away, are parsed and deleted. Four lists
 * report the outcome. The Telegram server is a function from the offset
 * to the updates it returns; sending the report and reading and writing
 * the cursor file are not modelled, the cursor is a field.
 */
module Bot {
  import opened Wrappers
  import opened Text
  import opened InputParser
  import opened Expenses

  /** The substring that marks a message as a deletion. */
  const Marker := "DELETE"

  /** `"DELETE" in m`. */
  predicate IsDeletion(m: string) {
    Contains(m, Marker)
  }

  // ---------------------------------------------------------------------
  // The partition of processMessages
  // ---------------------------------------------------------------------

  /** `[m for m in ms if p(m) == keep]`. */
  function Filter(ms: seq<string>, p: string -> bool, keep: bool): (r: seq<string>)
    ensures |r| <= |ms|
  {
    if ms == [] then []
    else Filter(ms[..|ms| - 1], p, keep) + (if p(ms[|ms| - 1]) == keep then [ms[|ms| - 1]] else [])
  }

  /** `new_entries`. */
  function NewEntries(ms: seq<string>): seq<string> {
    Filter(ms, IsDeletion, false)
  }

  /** `del_entries`. */
  function DelEntries(ms: seq<string>): seq<string> {
    Filter(ms, IsDeletion, true)
  }

  /** A comprehension over a concatenation is the concatenation of the comprehensions: order is kept. */
  lemma {:induction false} FilterAppend(xs: seq<string>, ys: seq<string>, p: string -> bool, keep: bool)
    ensures Filter(xs + ys, p, keep) == Filter(xs, p, keep) + Filter(ys, p, keep)
    decreases |ys|
  {
    if ys == [] {
      assert xs + ys == xs;
    } else {
      var front := ys[..|ys| - 1];
      assert (xs + ys)[..|xs + ys| - 1] == xs + front;
      assert (xs + ys)[|xs + ys| - 1] == ys[|ys| - 1];
      FilterAppend(xs, front, p, keep);
    }
  }

  /** The kept messages are exactly the messages of `ms` on which `p` is `keep`. */
  lemma {:induction false} FilterMembers(ms: seq<string>, p: string -> bool, keep: bool)
    ensures forall m :: m in Filter(ms, p, keep) <==> m in ms && p(m) == keep
    decreases |ms|
  {
    if ms != [] {
      var front := ms[..|ms| - 1];
      FilterMembers(front, p, keep);
      assert ms == front + [ms[|ms| - 1]];
    }
  }

  /** The two comprehensions share the messages out between them, each message exactly once. */
  lemma {:induction false} FilterSplits(ms: seq<string>, p: string -> bool)
    ensures multiset(Filter(ms, p, false)) + multiset(Filter(ms, p, true)) == multiset(ms)
    ensures |Filter(ms, p, false)| + |Filter(ms, p, true)| == |ms|
    decreases |ms|
  {
    if ms != [] {
      var front, last := ms[..|ms| - 1], ms[|ms| - 1];
      FilterSplits(front, p);
      assert ms == front + [last];
      assert multiset(ms) == multiset(front) + multiset{last};
      if p(last) {
        assert Filter(ms, p, true) == Filter(front, p, true) + [last];
        assert Filter(ms, p, false) == Filter(front, p, false);
      } else {
        assert Filter(ms, p, false) == Filter(front, p, false) + [last];
        assert Filter(ms, p, true) == Filter(front, p, true);
      }
    }
  }

  /** The partition of `processMessages`: order kept, every message in exactly one list, on the marker. */
  lemma PartitionSpec(ms: seq<string>)
    ensures forall m :: m in NewEntries(ms) <==> m in ms && !IsDeletion(m)
    ensures forall m :: m in DelEntries(ms) <==> m in ms && IsDeletion(m)
    ensures multiset(NewEntries(ms)) + multiset(DelEntries(ms)) == multiset(ms)
    ensures |NewEntries(ms)| + |DelEntries(ms)| == |ms|
  {
    FilterMembers(ms, IsDeletion, false);
    FilterMembers(ms, IsDeletion, true);
    FilterSplits(ms, IsDeletion);
  }

  // ---------------------------------------------------------------------
  // The loop over new entries
  // ---------------------------------------------------------------------

  /** The messages `parse` accepts (`success_new_entries`), or rejects, in order. */
  function Accepted(ms: seq<string>, parse: string -> Parsed, valid: bool): seq<string> {
    if ms == [] then []
    else Accepted(ms[..|ms| - 1], parse, valid) + (if parse(ms[|ms| - 1]).IsValid() == valid then [ms[|ms| - 1]] else [])
  }

  /** The rows the accepted messages add, one per message, in order. */
  function AddedRows(ms: seq<string>, parse: string -> Parsed): seq<Row> {
    if ms == [] then []
    else
      var m := ms[|ms| - 1];
      AddedRows(ms[..|ms| - 1], parse) + (if parse(m).IsValid() then [ParsedRow(parse(m))] else [])
  }

  /** Each message lands in exactly one of the success and fail lists, after its parse. */
  lemma {:induction false} AcceptedSplits(ms: seq<string>, parse: string -> Parsed)
    ensures multiset(Accepted(ms, parse, true)) + multiset(Accepted(ms, parse, false)) == multiset(ms)
    ensures forall m :: m in Accepted(ms, parse, true) ==> parse(m).IsValid()
    ensures forall m :: m in Accepted(ms, parse, false) ==> !parse(m).IsValid()
    decreases |ms|
  {
    if ms != [] {
      var front, last := ms[..|ms| - 1], ms[|ms| - 1];
      AcceptedSplits(front, parse);
      assert ms == front + [last];
      assert multiset(ms) == multiset(front) + multiset{last};
      if parse(last).IsValid() {
        assert Accepted(ms, parse, true) == Accepted(front, parse, true) + [last];
        assert Accepted(ms, parse, false) == Accepted(front, parse, false);
      } else {
        assert Accepted(ms, parse, false) == Accepted(front, parse, false) + [last];
        assert Accepted(ms, parse, true) == Accepted(front, parse, true);
      }
    }
  }

  /** Exactly one `add_entry` per accepted message: the i-th added row is the parse of the i-th accepted message. */
  lemma {:induction false} AddedRowsMatch(ms: seq<string>, parse: string -> Parsed)
    ensures |AddedRows(ms, parse)| == |Accepted(ms, parse, true)|
    ensures forall i :: 0 <= i < |AddedRows(ms, parse)| ==>
              parse(Accepted(ms, parse, true)[i]).IsValid()
              && AddedRows(ms, parse)[i] == ParsedRow(parse(Accepted(ms, parse, true)[i]))
    decreases |ms|
  {
    if ms != [] {
      AddedRowsMatch(ms[..|ms| - 1], parse);
    }
  }

  /** One more message, parsed to `p`, joins the list its validity picks. */
  lemma AcceptedNext(ms: seq<string>, i: nat, parse: string -> Parsed, p: Parsed)
    requires i < |ms| && parse(ms[i]) == p
    ensures Accepted(ms[..i + 1], parse, true) == Accepted(ms[..i], parse, true) + (if p.IsValid() then [ms[i]] else [])
    ensures Accepted(ms[..i + 1], parse, false) == Accepted(ms[..i], parse, false) + (if p.IsValid() then [] else [ms[i]])
  {
    SliceSnoc(ms, i);
  }

  /** One more message, parsed to `p`, adds its row when `p` is valid. */
  lemma AddedStep(ms: seq<string>, i: nat, parse: string -> Parsed, p: Parsed, rows0: seq<Row>, before: seq<Row>, after: seq<Row>)
    requires i < |ms| && parse(ms[i]) == p
    requires before == rows0 + AddedRows(ms[..i], parse)
    requires after == before + (if p.IsValid() then [ParsedRow(p)] else [])
    ensures after == rows0 + AddedRows(ms[..i + 1], parse)
  {
    SliceSnoc(ms, i);
  }

  // ---------------------------------------------------------------------
  // The loop over delete entries
  // ---------------------------------------------------------------------

  /** `message.replace("DELETE", "")` of every marked message. */
  function Unmarked(ms: seq<string>): (r: seq<string>)
    ensures |r| == |ms|
  {
    seq(|ms|, i requires 0 <= i < |ms| => ReplaceAll(ms[i], Marker, ""))
  }

  /** The table after the delete statements of the valid messages among `ms`, in order. */
  function AfterDeletes(rows: seq<Row>, ms: seq<string>, parse: string -> Parsed): seq<Row> {
    if ms == [] then rows
    else
      var r := AfterDeletes(rows, ms[..|ms| - 1], parse);
      var m := ms[|ms| - 1];
      if parse(m).IsValid() then Without(r, ParsedRow(parse(m))) else r
  }

  /** The deletes act on each part of the table alone, so the kept rows stay in their order. */
  lemma {:induction false} AfterDeletesAppend(a: seq<Row>, b: seq<Row>, ms: seq<string>, parse: string -> Parsed)
    ensures AfterDeletes(a + b, ms, parse) == AfterDeletes(a, ms, parse) + AfterDeletes(b, ms, parse)
    decreases |ms|
  {
    if ms != [] {
      var front, m := ms[..|ms| - 1], ms[|ms| - 1];
      AfterDeletesAppend(a, b, front, parse);
      if parse(m).IsValid() {
        WithoutAppend(AfterDeletes(a, front, parse), AfterDeletes(b, front, parse), ParsedRow(parse(m)));
      }
    }
  }

  /** The rows some valid message of `ms` names. */
  predicate Named(x: Row, ms: seq<string>, parse: string -> Parsed) {
    exists i :: 0 <= i < |ms| && parse(ms[i]).IsValid() && ParsedRow(parse(ms[i])) == x
  }

  /**
   * The deletes remove every row that a valid message names, and keep
   * every row that none names.
   */
  lemma {:induction false} AfterDeletesSpec(rows: seq<Row>, ms: seq<string>, parse: string -> Parsed)
    ensures forall x :: x in AfterDeletes(rows, ms, parse) <==> x in rows && !Named(x, ms, parse)
    decreases |ms|
  {
    if ms != [] {
      var front, m := ms[..|ms| - 1], ms[|ms| - 1];
      AfterDeletesSpec(rows, front, parse);
      NamedNext(ms, parse);
      if parse(m).IsValid() {
        WithoutMembers(AfterDeletes(rows, front, parse), ParsedRow(parse(m)));
      }
    }
  }

  /** A row is named by a batch when the front names it or the last message does. */
  lemma NamedNext(ms: seq<string>, parse: string -> Parsed)
    requires ms != []
    ensures forall x :: Named(x, ms, parse) <==>
              (Named(x, ms[..|ms| - 1], parse) || (parse(ms[|ms| - 1]).IsValid() && ParsedRow(parse(ms[|ms| - 1])) == x))
  {
    var front, m := ms[..|ms| - 1], ms[|ms| - 1];
    forall x ensures Named(x, ms, parse) <==> Named(x, front, parse) || (parse(m).IsValid() && ParsedRow(parse(m)) == x) {
      if Named(x, front, parse) {
        var i :| 0 <= i < |front| && parse(front[i]).IsValid() && ParsedRow(parse(front[i])) == x;
        assert ms[i] == front[i];
      }
      if Named(x, ms, parse) {
        var i :| 0 <= i < |ms| && parse(ms[i]).IsValid() && ParsedRow(parse(ms[i])) == x;
        if i < |front| {
          assert front[i] == ms[i];
        }
      }
    }
  }

  /** Delete messages that do not parse leave the table as it is. */
  lemma {:induction false} InvalidDeletesKeepTable(rows: seq<Row>, ms: seq<string>, parse: string -> Parsed)
    requires forall i :: 0 <= i < |ms| ==> !parse(ms[i]).IsValid()
    ensures AfterDeletes(rows, ms, parse) == rows
    decreases |ms|
  {
    if ms != [] {
      InvalidDeletesKeepTable(rows, ms[..|ms| - 1], parse);
    }
  }

  lemma AfterDeletesNext(rows: seq<Row>, ms: seq<string>, i: nat, parse: string -> Parsed)
    requires i < |ms|
    ensures AfterDeletes(rows, ms[..i + 1], parse)
         == if parse(ms[i]).IsValid() then Without(AfterDeletes(rows, ms[..i], parse), ParsedRow(parse(ms[i])))
            else AfterDeletes(rows, ms[..i], parse)
  {
    SliceSnoc(ms, i);
  }

  /** `str.replace` scans once, so a marker can survive it: "DEDELETELETE" becomes "DELETE". */
  lemma MarkerSurvivesReplace()
    ensures ReplaceAll("DEDELETELETE", Marker, "") == Marker
    ensures IsDeletion("DEDELETELETE") && IsDeletion(ReplaceAll("DEDELETELETE", Marker, ""))
  {
    assert Contains(Marker, Marker);
    assert Contains("DEDELETELETE", Marker) by {
      assert "DEDELETELETE"[2..][..6] == Marker;
    }
  }

  // ---------------------------------------------------------------------
  // The cursor
  // ---------------------------------------------------------------------

  /** One element of `self.updates`. */
  datatype Update = Update(updateId: int, text: string, chatId: int)

  /** `self.last_update_id + 1 if self.last_update_id else None`: 0, like None, is falsy. */
  function Offset(lastUpdateId: Option<int>): Option<int> {
    match lastUpdateId
    case None => None
    case Some(v) => if v != 0 then Some(v + 1) else None
  }

  /** No cursor and a stored 0 both ask for every pending update; any other cursor asks for the updates after it. */
  lemma OffsetSpec(lastUpdateId: Option<int>)
    ensures Offset(lastUpdateId).None? <==> lastUpdateId.None? || lastUpdateId.value == 0
    ensures Offset(lastUpdateId).Some? ==> Offset(lastUpdateId).value == lastUpdateId.value + 1
  {
  }

  /** The texts of the updates, in order. */
  function Texts(updates: seq<Update>): (r: seq<string>)
    ensures |r| == |updates|
  {
    seq(|updates|, i requires 0 <= i < |updates| => updates[i].text)
  }

  /** Ids ascending, as the server hands them out. */
  predicate Ascending(updates: seq<Update>) {
    forall i, j :: 0 <= i < j < |updates| ==> updates[i].updateId < updates[j].updateId
  }

  /**
   * With ascending positive ids, the cursor a run leaves behind asks the
   * next run for updates past every one just processed.
   */
  lemma NextOffsetSkipsBatch(updates: seq<Update>)
    requires updates != [] && Ascending(updates) && updates[0].updateId > 0
    ensures Offset(Some(updates[|updates| - 1].updateId)).Some?
    ensures forall i :: 0 <= i < |updates| ==> updates[i].updateId < Offset(Some(updates[|updates| - 1].updateId)).value
  {
    var last := updates[|updates| - 1].updateId;
    assert last > 0 by {
      if |updates| > 1 {
        assert updates[0].updateId < last;
      }
    }
    forall i | 0 <= i < |updates| ensures updates[i].updateId <= last {
      if i < |updates| - 1 {
        assert updates[i].updateId < updates[|updates| - 1].updateId;
      }
    }
  }

  // ---------------------------------------------------------------------
  // The bot
  // ---------------------------------------------------------------------

  /** The four lists `processMessages` reports back to the chat. */
  datatype Report = Report(successNew: seq<string>, failNew: seq<string>, successDel: seq<string>, failDel: seq<string>)

  /** `TelegramBot`: the table, the cursor as read at start and as saved, the chat and the batch. */
  class TelegramBot {
    const db: DatabaseHandler
    const lastUpdateId: Option<int>
    var savedUpdateId: Option<int>
    var chatId: Option<int>
    var updates: seq<Update>
    var messages: seq<string>

    /** A bot over `db` whose cursor file holds `stored` (None: no file). */
    constructor(db: DatabaseHandler, stored: Option<int>)
      ensures this.db == db && lastUpdateId == stored && savedUpdateId == stored
      ensures chatId == None && updates == [] && messages == []
    {
      this.db := db;
      lastUpdateId := stored;
      savedUpdateId := stored;
      chatId := None;
      updates := [];
      messages := [];
    }

    /** `get_updates`: the server's answer for the offset of the cursor read at start. */
    method GetUpdates(server: Option<int> -> seq<Update>)
      modifies this`updates
      ensures updates == server(Offset(lastUpdateId))
    {
      var offset := if lastUpdateId.Some? && lastUpdateId.value != 0 then Some(lastUpdateId.value + 1) else None;
      updates := server(offset);
    }

    /** The update loop of `run`: the texts in order, the cursor and chat of the last update. */
    method CollectUpdates()
      modifies this`messages, this`savedUpdateId, this`chatId
      ensures messages == Texts(updates)
      ensures updates == [] ==> savedUpdateId == old(savedUpdateId) && chatId == old(chatId)
      ensures updates != [] ==> savedUpdateId == Some(updates[|updates| - 1].updateId)
                                && chatId == Some(updates[|updates| - 1].chatId)
    {
      messages := [];
      for i := 0 to |updates|
        invariant messages == Texts(updates[..i])
        invariant i == 0 ==> savedUpdateId == old(savedUpdateId) && chatId == old(chatId)
        invariant i > 0 ==> savedUpdateId == Some(updates[i - 1].updateId) && chatId == Some(updates[i - 1].chatId)
      {
        var update := updates[i];
        savedUpdateId := Some(update.updateId);
        messages := messages + [update.text];
        chatId := Some(update.chatId);
      }
      assert updates[..|updates|] == updates;
    }

    /** `run`: fetch, collect, process. */
    method Run(server: Option<int> -> seq<Update>) returns (report: Report)
      modifies this`updates, this`messages, this`savedUpdateId, this`chatId, db
      ensures updates == server(Offset(lastUpdateId)) && messages == Texts(updates)
      ensures updates == [] ==> savedUpdateId == old(savedUpdateId) && chatId == old(chatId)
      ensures updates != [] ==> savedUpdateId == Some(updates[|updates| - 1].updateId)
                                && chatId == Some(updates[|updates| - 1].chatId)
      ensures report == Outcome(messages)
      ensures db.rows == AfterDeletes(old(db.rows) + AddedRows(NewEntries(messages), Parse),
                                      Unmarked(DelEntries(messages)), Parse)
    {
      GetUpdates(server);
      CollectUpdates();
      report := ProcessMessages();
    }

    /**
     * `processMessages`: the unmarked messages parsed and stored, the
     * marked ones unmarked, parsed and deleted. `delete_entry` returns
     * None, so every delete, carried out or not, is reported as failed.
     */
    method ProcessMessages() returns (report: Report)
      modifies db
      ensures report == Outcome(messages)
      ensures db.rows == AfterDeletes(old(db.rows) + AddedRows(NewEntries(messages), Parse),
                                      Unmarked(DelEntries(messages)), Parse)
    {
      var newEntries := NewEntries(messages);
      var delEntries := DelEntries(messages);
      var successNew, failNew := AddNewEntries(newEntries);
      var successDel, failDel := RemoveEntries(delEntries);
      report := Report(successNew, failNew, successDel, failDel);
    }

    /** The first loop of `processMessages`. */
    method AddNewEntries(newEntries: seq<string>) returns (success: seq<string>, fail: seq<string>)
      modifies db
      ensures success == Accepted(newEntries, Parse, true) && fail == Accepted(newEntries, Parse, false)
      ensures db.rows == old(db.rows) + AddedRows(newEntries, Parse)
    {
      success, fail := [], [];
      for i := 0 to |newEntries|
        invariant success == Accepted(newEntries[..i], Parse, true)
        invariant fail == Accepted(newEntries[..i], Parse, false)
        invariant db.rows == old(db.rows) + AddedRows(newEntries[..i], Parse)
      {
        var message := newEntries[i];
        ghost var p := Parse(message);
        AcceptedNext(newEntries, i, Parse, p);
        ghost var before := db.rows;
        var ok := AddOne(message);
        AddedStep(newEntries, i, Parse, p, old(db.rows), before, db.rows);
        if ok {
          success := success + [message];
        } else {
          fail := fail + [message];
        }
      }
      SliceAll(newEntries);
    }

    /** The body of the first loop: parse, then `add_entry` when valid. */
    method AddOne(message: string) returns (ok: bool)
      modifies db
      ensures ok == Parse(message).IsValid()
      ensures db.rows == old(db.rows) + (if ok then [ParsedRow(Parse(message))] else [])
    {
      var info := new UserInputProcessor(message);
      ok := Store(info);
    }

    /** `add_entry` of a valid parse. */
    method Store(info: UserInputProcessor) returns (ok: bool)
      requires info.isValid == info.Fields().IsValid()
      modifies db
      ensures ok == info.Fields().IsValid()
      ensures db.rows == old(db.rows) + (if ok then [ParsedRow(info.Fields())] else [])
    {
      ok := info.isValid;
      if ok {
        db.AddEntry(info.month.value, IntToString(info.year.value), info.day.value,
                    info.category.value, info.value.value, info.description.value);
      }
    }

    /** The second loop of `processMessages`. */
    method RemoveEntries(delEntries: seq<string>) returns (success: seq<string>, fail: seq<string>)
      modifies db
      ensures success == [] && fail == Unmarked(delEntries)
      ensures db.rows == AfterDeletes(old(db.rows), Unmarked(delEntries), Parse)
    {
      success, fail := [], [];
      var unmarked := Unmarked(delEntries);
      for i := 0 to |delEntries|
        invariant fail == unmarked[..i]
        invariant db.rows == AfterDeletes(old(db.rows), unmarked[..i], Parse)
      {
        var message := ReplaceAll(delEntries[i], Marker, "");
        assert message == unmarked[i];
        AfterDeletesNext(old(db.rows), unmarked, i, Parse);
        var info := new UserInputProcessor(message);
        Remove(info);
        // `delete_entry` returns None, which is falsy
        fail := fail + [message];
        SliceSnoc(unmarked, i);
      }
      SliceAll(unmarked);
    }

    /** The body of the second loop: `delete_entry` of a valid parse. */
    method Remove(info: UserInputProcessor)
      requires info.isValid == info.Fields().IsValid()
      modifies db
      ensures db.rows == if info.Fields().IsValid() then Without(old(db.rows), ParsedRow(info.Fields())) else old(db.rows)
    {
      if info.isValid {
        db.DeleteEntry(info.month.value, IntToString(info.year.value), info.day.value,
                       info.category.value, info.value.value, info.description.value);
      }
    }
  }

  /** The report of a batch: the new entries split by their parse, no successful delete, every unmarked delete failed. */
  function Outcome(ms: seq<string>): Report {
    Report(Accepted(NewEntries(ms), Parse, true), Accepted(NewEntries(ms), Parse, false), [], Unmarked(DelEntries(ms)))
  }
}
