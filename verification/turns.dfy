/** Reshaping a chat for a model that wants the system text apart and strictly
    alternating user and assistant turns. */
module Turns {
  import opened Text

  datatype Message = Message(role: string, content: string)

  datatype Side = User | Assistant

  datatype Turn = Turn(side: Side, content: string)

  const GLUE := "\n\n"
  const FILLER := "continue"

  /** Every role but "assistant" speaks for the user. */
  function SideOf(m: Message): Side { if m.role == "assistant" then Assistant else User }

  function Contents(messages: seq<Message>): seq<string> {
    seq(|messages|, i requires 0 <= i < |messages| => messages[i].content)
  }

  function Select(messages: seq<Message>, system: bool): seq<Message> {
    if messages == [] then []
    else
      var front, last := Select(messages[..|messages| - 1], system), messages[|messages| - 1];
      if (last.role == "system") == system then front + [last] else front
  }

  function Flatten(groups: seq<seq<Message>>): seq<Message> {
    if groups == [] then [] else Flatten(groups[..|groups| - 1]) + groups[|groups| - 1]
  }

  predicate Alternating(turns: seq<Turn>) {
    forall i :: 0 <= i < |turns| - 1 ==> turns[i].side != turns[i + 1].side
  }

  /** Each turn is one group of consecutive messages of one side, joined by blank lines. */
  predicate Tells(turns: seq<Turn>, groups: seq<seq<Message>>) {
    && |turns| == |groups|
    && forall i :: 0 <= i < |turns| ==>
         && groups[i] != []
         && (forall m <- groups[i] :: m.role == "assistant" <==> turns[i].side == Assistant)
         && turns[i].content == Join(Contents(groups[i]), "\n\n")
  }

  lemma {:induction false} JoinSnoc(words: seq<string>, w: string, glue: string)
    requires words != []
    ensures Join(words + [w], glue) == Join(words, glue) + glue + w
  {
    if |words| == 1 {
      assert (words + [w])[1..] == [w];
    } else {
      assert (words + [w])[1..] == words[1..] + [w];
      JoinSnoc(words[1..], w, glue);
    }
  }

  lemma SelectNext(messages: seq<Message>, i: nat, system: bool)
    requires i < |messages|
    ensures Select(messages[..i + 1], system) == Select(messages[..i], system)
              + if (messages[i].role == "system") == system then [messages[i]] else []
  {
    assert messages[..i + 1][..i] == messages[..i];
  }

  /** Adding one message to a telling: to the last turn if the side is the same, as a new
      turn otherwise. Either way the telling covers one message more. */
  lemma TellOneMore(turns: seq<Turn>, groups: seq<seq<Message>>, m: Message)
    requires Tells(turns, groups)
    ensures var side, n := SideOf(m), |turns| - 1;
            if turns != [] && turns[n].side == side then
              var turns' := turns[..n] + [Turn(side, turns[n].content + GLUE + m.content)];
              var groups' := groups[..n] + [groups[n] + [m]];
              && Tells(turns', groups') && Flatten(groups') == Flatten(groups) + [m]
              && (Alternating(turns) ==> Alternating(turns'))
            else
              var turns', groups' := turns + [Turn(side, m.content)], groups + [[m]];
              && Tells(turns', groups') && Flatten(groups') == Flatten(groups) + [m]
              && (Alternating(turns) ==> Alternating(turns'))
  {
    var side, n := SideOf(m), |turns| - 1;
    if turns != [] && turns[n].side == side {
      var groups' := groups[..n] + [groups[n] + [m]];
      JoinSnoc(Contents(groups[n]), m.content, GLUE);
      assert Contents(groups[n] + [m]) == Contents(groups[n]) + [m.content];
      assert groups'[..n] == groups[..n];
    } else {
      var groups' := groups + [[m]];
      assert groups'[..|groups|] == groups;
      assert Contents([m]) == [m.content];
    }
  }

  lemma {:induction false} FlattenStarts(turns: seq<Turn>, groups: seq<seq<Message>>)
    requires Tells(turns, groups)
    ensures groups == [] <==> Flatten(groups) == []
    ensures groups != [] ==> SideOf(Flatten(groups)[0]) == turns[0].side
  {
    var n := |groups| - 1;
    if n > 0 {
      FlattenStarts(turns[..n], groups[..n]);
    } else if n == 0 {
      assert Flatten(groups[..0]) == [];
      assert Flatten(groups) == groups[0];
    }
  }

  lemma NothingYet(messages: seq<Message>)
    ensures Select(messages[..0], true) == [] == Select(messages[..0], false)
    ensures Flatten([]) == []
  {
  }

  /** The turns always start with the user and strictly alternate. They tell every
      non-system message, in order and complete; a filler turn is put in front exactly
      when the first of them is the assistant's, or when there is none. The system texts
      come back joined, in order. */
  method SplitSystem(messages: seq<Message>)
      returns (system: string, turns: seq<Turn>, ghost groups: seq<seq<Message>>)
    ensures system == Join(Contents(Select(messages, true)), "\n\n")
    ensures turns != [] && turns[0].side == User && Alternating(turns)
    ensures Flatten(groups) == Select(messages, false)
    ensures var said := Select(messages, false);
            var lead := said == [] || said[0].role == "assistant";
            if lead then turns[0] == Turn(User, "continue") && Tells(turns[1..], groups)
            else Tells(turns, groups)
  {
    hide Select, Flatten, Join;
    var systemParts := [];
    turns, groups := [], [];
    NothingYet(messages);
    for i := 0 to |messages|
      invariant systemParts == Contents(Select(messages[..i], true))
      invariant Tells(turns, groups) && Alternating(turns)
      invariant Flatten(groups) == Select(messages[..i], false)
    {
      var message := messages[i];
      SelectNext(messages, i, true);
      SelectNext(messages, i, false);
      if message.role == "system" {
        systemParts := systemParts + [message.content];
      } else {
        var side := SideOf(message);
        TellOneMore(turns, groups, message);
        var n := |turns| - 1;
        if turns != [] && turns[n].side == side {
          groups := groups[..n] + [groups[n] + [message]];
          turns := turns[..n] + [Turn(side, turns[n].content + GLUE + message.content)];
        } else {
          groups := groups + [[message]];
          turns := turns + [Turn(side, message.content)];
        }
      }
    }
    assert messages[..|messages|] == messages;
    FlattenStarts(turns, groups);
    if turns == [] {
      turns := [Turn(User, FILLER)];
    }
    if turns[0].side != User {
      turns := [Turn(User, FILLER)] + turns;
    }
    system := Join(systemParts, GLUE);
  }

  lemma {:induction false} SelectAll(messages: seq<Message>, m: Message)
    requires m in messages && m.role != "system"
    ensures m in Select(messages, false)
  {
    var n := |messages| - 1;
    if m != messages[n] { SelectAll(messages[..n], m); }
  }

  lemma {:induction false} FlattenHas(groups: seq<seq<Message>>, m: Message) returns (i: nat)
    requires m in Flatten(groups)
    ensures i < |groups| && m in groups[i]
  {
    var n := |groups| - 1;
    if m in groups[n] { i := n; } else { i := FlattenHas(groups[..n], m); }
  }

  lemma {:induction false} JoinContains(words: seq<string>, k: nat, glue: string)
    requires k < |words|
    ensures Contains(Join(words, glue), words[k])
    decreases |words|
  {
    if |words| == 1 {
      assert OccursAt(words[0], words[0], 0);
    } else if k == 0 {
      assert OccursAt(Join(words, glue), words[0], 0);
    } else {
      JoinContains(words[1..], k - 1, glue);
      var rest, whole := Join(words[1..], glue), Join(words, glue);
      var i :| 0 <= i <= |rest| && OccursAt(rest, words[k], i);
      var j := |words[0] + glue| + i;
      assert whole == words[0] + glue + rest;
      assert whole[j..j + |words[k]|] == rest[i..i + |words[k]|];
      assert OccursAt(whole, words[k], j);
    }
  }

  /** Nothing that was said is lost: every non-system message's text is part of a turn
      spoken by its own side. */
  lemma NothingIsLost(messages: seq<Message>, turns: seq<Turn>, groups: seq<seq<Message>>, m: Message)
    requires Tells(turns, groups) && Flatten(groups) == Select(messages, false)
    requires m in messages && m.role != "system"
    ensures exists t <- turns :: (t.side == Assistant <==> m.role == "assistant") && Contains(t.content, m.content)
  {
    SelectAll(messages, m);
    var i := FlattenHas(groups, m);
    var k :| 0 <= k < |groups[i]| && groups[i][k] == m;
    JoinContains(Contents(groups[i]), k, GLUE);
    assert turns[i] in turns;
  }
}
