/**
 * The messages listing (app/controllers/message.go): the user's new
 * messages, and for the "read" action the loop that marks every fetched
 * message as replied and saves it. What the store's queries return is an
 * input: `fetched` and `keys` are the messages the first query loaded, in
 * order, with their keys; `listed` is what the final query returned.
 */
module Messages {
  import opened Wrappers
  import opened Orm
  import Store
  import Paging
  import Middleware

  /** Each message with its read status set to "reply" and every other field as it was. */
  function Marked(ms: seq<Message>): seq<Message>
  {
    seq(|ms|, i requires 0 <= i < |ms| => ms[i].(statusRead := "reply"))
  }

  /** The rows after saving `ms[i]` under `keys[i]`, one after the other. */
  function SaveAll(rows: map<nat, Message>, keys: seq<nat>, ms: seq<Message>): map<nat, Message>
    requires |keys| == |ms|
    decreases |keys|
  {
    if keys == [] then rows
    else SaveAll(rows, keys[..|keys| - 1], ms[..|ms| - 1])[keys[|keys| - 1] := ms[|ms| - 1]]
  }

  /** Saving one more message: the rows so far, then that message under its key. */
  lemma SaveAllSnoc(rows: map<nat, Message>, keys: seq<nat>, ms: seq<Message>, i: nat)
    requires |keys| == |ms| && i < |keys|
    ensures SaveAll(rows, keys[..i + 1], ms[..i + 1]) == SaveAll(rows, keys[..i], ms[..i])[keys[i] := ms[i]]
  {
    assert keys[..i + 1][..i] == keys[..i];
    assert ms[..i + 1][..i] == ms[..i];
  }

  /** The stored messages under `keys`, in order: what a query for those keys loads. */
  function Fetch(rows: map<nat, Message>, keys: seq<nat>): seq<Message>
    requires forall i :: 0 <= i < |keys| ==> keys[i] in rows
  {
    seq(|keys|, i requires 0 <= i < |keys| => rows[keys[i]])
  }

  /** The table with the messages under `keys` marked read and every other row as it was. */
  function MarkedRows(rows: map<nat, Message>, keys: seq<nat>): (r: map<nat, Message>)
    ensures r.Keys == rows.Keys
  {
    map k | k in rows :: if k in keys then rows[k].(statusRead := "reply") else rows[k]
  }

  /**
   * Saving back the marked copies of the fetched messages marks exactly
   * those messages read: no row is added or removed, no other field of a
   * marked message changes, and every other message is left alone.
   */
  lemma {:induction false} SaveAllMarks(rows: map<nat, Message>, keys: seq<nat>)
    requires forall i :: 0 <= i < |keys| ==> keys[i] in rows
    ensures SaveAll(rows, keys, Marked(Fetch(rows, keys))) == MarkedRows(rows, keys)
    decreases |keys|
  {
    if keys != [] {
      var n := |keys| - 1;
      var front := keys[..n];
      assert Marked(Fetch(rows, keys))[..n] == Marked(Fetch(rows, front));
      SaveAllMarks(rows, front);
      var last := keys[n];
      forall k | k in rows
        ensures MarkedRows(rows, front)[last := rows[last].(statusRead := "reply")][k] == MarkedRows(rows, keys)[k]
      {
        assert k in keys <==> k in front || k == last by {
          assert keys == front + [last];
        }
      }
    }
  }

  /**
   * The "read" loop: every fetched message gets the read status "reply"
   * in place and is saved under its key.
   */
  method MarkRead(messages: Store.Table<Message>, fetched: array<Message>, keys: seq<nat>)
    requires messages.Valid() && fetched.Length == |keys|
    requires forall i :: 0 <= i < |keys| ==> keys[i] in messages.rows
    modifies messages, fetched
    ensures messages.Valid() && messages.nextId == old(messages.nextId)
    ensures fetched[..] == Marked(old(fetched[..]))
    ensures messages.rows == SaveAll(old(messages.rows), keys, Marked(old(fetched[..])))
  {
    ghost var rows0 := messages.rows;
    ghost var before := fetched[..];
    ghost var marked := Marked(before);
    var i := 0;
    while i < fetched.Length
      invariant 0 <= i <= fetched.Length
      invariant messages.Valid() && messages.nextId == old(messages.nextId)
      invariant forall j :: 0 <= j < |keys| ==> keys[j] in messages.rows
      invariant forall j :: 0 <= j < i ==> fetched[j] == marked[j]
      invariant forall j :: i <= j < fetched.Length ==> fetched[j] == before[j]
      invariant messages.rows == SaveAll(rows0, keys[..i], marked[..i])
    {
      fetched[i] := fetched[i].(statusRead := "reply");
      var id := messages.Save(keys[i], fetched[i]);
      SaveAllSnoc(rows0, keys, marked, i);
      i := i + 1;
    }
    assert keys[..i] == keys;
    assert marked[..i] == marked;
  }

  /** What GetMessages answers: the messages listed and the page flags. */
  datatype Listing = Listing(result: seq<Message>, flags: Paging.Flags)

  /**
   * GetMessages: the token's metadata is read with its error ignored, so
   * a token that fails to yield metadata panics as soon as "new" or "read"
   * asks for its user id. "read" marks the fetched messages before listing;
   * any other action lists nothing.
   */
  method GetMessages(messages: Store.Table<Message>, header: string, parse: string -> Middleware.Parse, pageParam: string, action: string,
                     fetched: array<Message>, keys: seq<nat>, listed: seq<Message>)
    returns (reply: Exec<Listing>)
    requires messages.Valid() && fetched.Length == |keys|
    requires forall i :: 0 <= i < |keys| ==> keys[i] in messages.rows
    requires fetched[..] == Fetch(messages.rows, keys)
    modifies messages, fetched
    ensures messages.Valid()
    ensures var meta := Middleware.MetadataOf(header, parse);
      (meta.ExtractPanic? || (meta.ExtractError? && (action == "new" || action == "read")) ==>
         reply == Panics && messages.rows == old(messages.rows))
    ensures var meta := Middleware.MetadataOf(header, parse);
      (meta.Extracted? || (meta.ExtractError? && action != "new" && action != "read") ==>
         var result := if action == "new" || action == "read" then listed else [];
         reply == Returns(Listing(result, Paging.PageFlags(Paging.ParsePage(pageParam), |result|))) &&
         messages.rows == (if action == "read" then MarkedRows(old(messages.rows), keys) else old(messages.rows)))
  {
    var meta := Middleware.ExtractTokenMetadata(header, parse);
    if meta.ExtractPanic? {
      return Panics;
    }
    var page := Paging.ParsePage(pageParam);
    var pagination := Paging.PageSize;
    var hasPrev, hasNext := false, false;
    var result: seq<Message> := [];
    if action == "new" {
      if meta.ExtractError? {
        return Panics;
      }
      result := listed;
    } else if action == "read" {
      if meta.ExtractError? {
        return Panics;
      }
      SaveAllMarks(messages.rows, keys);
      MarkRead(messages, fetched, keys);
      result := listed;
    }
    if page > 1 {
      hasPrev := true;
    }
    if |result| == pagination {
      hasNext := true;
    }
    reply := Returns(Listing(result, Paging.Flags(hasPrev, hasNext)));
  }
}
