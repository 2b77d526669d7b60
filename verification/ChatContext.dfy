/** The context budget of shared/chatMessageContract.ts: the newest messages that fit, and if there is room
  for more than a marker, a shortened next older one. Lengths are counted in code points, which is what a
  string is a sequence of here. */
module ChatContext {

  import opened Options

  datatype Message = Message(id: string, content: Option<string>)

  function Marker(): (s: string)
    ensures |s| == 27
  {
    "\n\U{2026}[truncated for context]\U{2026}\n"
  }

  function Content(m: Message): string {
    m.content.GetOr("")
  }

  function TotalChars(messages: seq<Message>): nat {
    if messages == [] then 0 else |Content(messages[0])| + TotalChars(messages[1..])
  }

  /** The source's truncateMessageForContext. */
  function Truncate(value: string, maxChars: int): string {
    if |value| <= maxChars then value
    else if maxChars < |Marker()| + 2 then ""
    else
      var available := maxChars - |Marker()|;
      value[..(available + 1) / 2] + Marker() + value[|value| - available / 2..]
  }

  /** A text that does not fit is either dropped, because the room is not worth a marker, or cut in the
      middle to exactly the room there is. */
  lemma TruncationIsExact(value: string, maxChars: int) returns (head: string, tail: string)
    requires |value| > maxChars
    ensures Truncate(value, maxChars) == "" <==> maxChars < |Marker()| + 2
    ensures Truncate(value, maxChars) != "" ==>
              && |Truncate(value, maxChars)| == maxChars
              && Truncate(value, maxChars) == head + Marker() + tail
              && head <= value && IsSuffix(tail, value) && |head| + |tail| < |value|
              && 1 <= |tail| <= |head| <= |tail| + 1
  {
    hide Marker;
    head, tail := "", "";
    if maxChars >= |Marker()| + 2 {
      var available := maxChars - |Marker()|;
      head, tail := value[..(available + 1) / 2], value[|value| - available / 2..];
    }
  }

  predicate IsSuffix<T(==)>(s: seq<T>, t: seq<T>) {
    |s| <= |t| && t[|t| - |s|..] == s
  }

  /** The choice, from the newest message backwards. */
  function Selected(messages: seq<Message>, budget: int): seq<Message> {
    if messages == [] || budget <= 0 then []
    else
      var n := |messages| - 1;
      var m := messages[n];
      if |Content(m)| <= budget then Selected(messages[..n], budget - |Content(m)|) + [m]
      else
        var cut := Truncate(Content(m), budget);
        if cut != "" then [m.(content := Some(cut))] else []
  }

  /** The source's selectRecentMessagesForContext. */
  method SelectRecent(messages: seq<Message>, maxChars: int) returns (result: seq<Message>)
    ensures result == Selected(messages, maxChars)
  {
    hide Truncate, TotalChars;
    result := [];
    if messages == [] || maxChars <= 0 {
      return;
    }
    var totalChars := 0;
    var index := |messages| - 1;
    assert messages[..index + 1] == messages;
    while index >= 0
      invariant -1 <= index < |messages|
      invariant Selected(messages[..index + 1], maxChars - totalChars) + result == Selected(messages, maxChars)
    {
      var message := messages[index];
      var content := Content(message);
      var remaining := maxChars - totalChars;
      if remaining <= 0 {
        return;
      }
      assert messages[..index + 1][..index] == messages[..index];
      if |content| <= remaining {
        assert Selected(messages[..index], remaining - |content|) + [message] + result
            == Selected(messages[..index], remaining - |content|) + ([message] + result);
        result := [message] + result;
        totalChars := totalChars + |content|;
        index := index - 1;
        continue;
      }
      var truncated := Truncate(content, remaining);
      if truncated != "" {
        result := [message.(content := Some(truncated))] + result;
      }
      return;
    }
  }

  lemma {:induction false} TotalOfSnoc(messages: seq<Message>, m: Message)
    ensures TotalChars(messages + [m]) == TotalChars(messages) + |Content(m)|
  {
    if messages == [] {
      assert messages + [m] == [m];
    } else {
      TotalOfSnoc(messages[1..], m);
      assert (messages + [m])[1..] == messages[1..] + [m];
    }
  }

  /** messages[k..], with messages[k] cut to what the newer ones leave of the budget when `cut` says so. */
  function Tail(messages: seq<Message>, budget: int, k: nat, cut: bool): seq<Message>
    requires k <= |messages| && (cut ==> k < |messages|)
  {
    if !cut then messages[k..]
    else
      var rest := messages[k + 1..];
      [messages[k].(content := Some(Truncate(Content(messages[k]), budget - TotalChars(rest))))] + rest
  }

  /** Whole messages from position k on fill the budget as far as they can: the next older one does not fit,
      or there is no room left at all. */
  predicate Fills(messages: seq<Message>, budget: int, k: nat)
    requires k <= |messages|
  {
    var room := budget - TotalChars(messages[k..]);
    (k == |messages| || room >= 0) && (k == 0 || room <= 0 || |Content(messages[k - 1])| > room)
  }

  lemma TailIs(messages: seq<Message>, budget: int, k: nat)
    requires k <= |messages|
    ensures Tail(messages, budget, k, false) == messages[k..]
    ensures k < |messages| ==>
              var rest := messages[k + 1..];
              Tail(messages, budget, k, true) ==
              [messages[k].(content := Some(Truncate(Content(messages[k]), budget - TotalChars(rest))))] + rest
  {
  }

  /** A newer message that is kept whole goes to the end and takes its length out of the budget. */
  lemma OneMoreWhole(front: seq<Message>, m: Message, budget: int, k: nat, cut: bool)
    requires k <= |front| && (cut ==> k < |front|)
    ensures Tail(front + [m], budget, k, cut) == Tail(front, budget - |Content(m)|, k, cut) + [m]
    ensures var whole := if cut then k + 1 else k;
            TotalChars((front + [m])[whole..]) == TotalChars(front[whole..]) + |Content(m)|
  {
    hide Truncate, TotalChars;
    var whole := if cut then k + 1 else k;
    assert (front + [m])[whole..] == front[whole..] + [m];
    TotalOfSnoc(front[whole..], m);
  }

  /** The result is a suffix of the conversation in which at most the first message is shortened, and the
      budget decides how far back it goes: every newer message is whole, the first is shortened exactly when
      it does not fit and there is room for a marker, and nothing older would have fitted. */
  lemma {:induction false} SelectedIsATail(messages: seq<Message>, budget: int) returns (k: nat, cut: bool)
    ensures k <= |messages| && (cut ==> k < |messages|)
    ensures Selected(messages, budget) == Tail(messages, budget, k, cut)
    ensures var whole := if cut then k + 1 else k;
            var room := budget - TotalChars(messages[whole..]);
            && Fills(messages, budget, whole)
            && (cut <==> whole > 0 && room >= |Marker()| + 2)
  {
    hide Truncate, Tail;
    if messages == [] || budget <= 0 {
      TailIs(messages, budget, |messages|);
      k, cut := |messages|, false;
    } else {
      var n := |messages| - 1;
      var m := messages[n];
      assert messages == messages[..n] + [m];
      if |Content(m)| <= budget {
        k, cut := SelectedIsATail(messages[..n], budget - |Content(m)|);
        OneMoreWhole(messages[..n], m, budget, k, cut);
      } else {
        var head, tail := TruncationIsExact(Content(m), budget);
        assert messages[n + 1..] == [];
        TailIs(messages, budget, n);
        TailIs(messages, budget, n + 1);
        cut := Truncate(Content(m), budget) != "";
        k := if cut then n else n + 1;
      }
    }
  }

  /** The budget is never exceeded, and it is used up completely whenever a message had to be shortened. */
  lemma BudgetIsKept(messages: seq<Message>, budget: int)
    ensures budget >= 0 ==> TotalChars(Selected(messages, budget)) <= budget
    ensures budget < 0 ==> Selected(messages, budget) == []
    ensures var r := Selected(messages, budget);
            r != [] && !IsSuffix(r, messages) ==> TotalChars(r) == budget
  {
    var k, cut := SelectedIsATail(messages, budget);
    if cut {
      var rest := messages[k + 1..];
      var head, tail := TruncationIsExact(Content(messages[k]), budget - TotalChars(rest));
      assert Tail(messages, budget, k, cut)[1..] == rest;
    } else {
      assert IsSuffix(messages[k..], messages);
    }
  }

  /** A larger budget never keeps fewer messages. */
  lemma {:induction false} MoreBudgetKeepsMore(messages: seq<Message>, small: int, large: int)
    requires small <= large
    ensures |Selected(messages, small)| <= |Selected(messages, large)|
  {
    if messages != [] && small > 0 {
      var n := |messages| - 1;
      var length := |Content(messages[n])|;
      if length <= small {
        MoreBudgetKeepsMore(messages[..n], small - length, large - length);
      } else if length > large {
        var h1, t1 := TruncationIsExact(Content(messages[n]), small);
        var h2, t2 := TruncationIsExact(Content(messages[n]), large);
      }
    }
  }
}
