/** The command list builders of scpilink.py: options that are asked for are appended in a fixed order,
    the list is sent as one message, and the reply is cut back into the answers to the options. */
module ScpiLink {
  import opened Bytes
  import opened Requests
  import opened Options
  import opened Server

  /** An option of a builder: whether the caller asked for it, and its command text. */
  datatype Item = Item(asked: bool, text: string)

  function Chosen(items: seq<Item>): seq<string> {
    if items == [] then []
    else
      var n := |items| - 1;
      Chosen(items[..n]) + if items[n].asked then [items[n].text] else []
  }

  /** How many options before the `i`-th were asked for: its place in the reply. */
  function Place(items: seq<Item>, i: nat): nat
    requires i <= |items|
  {
    |Chosen(items[..i])|
  }

  lemma ChosenSnoc(items: seq<Item>, item: Item)
    ensures Chosen(items + [item]) == Chosen(items) + if item.asked then [item.text] else []
  {
    assert (items + [item])[..|items|] == items;
  }

  lemma ChosenUpTo(items: seq<Item>, k: nat)
    requires k < |items|
    ensures Chosen(items[..k + 1]) == Chosen(items[..k]) + if items[k].asked then [items[k].text] else []
  {
    ChosenSnoc(items[..k], items[k]);
    assert items[..k] + [items[k]] == items[..k + 1];
  }

  lemma {:induction false} ChosenAt(items: seq<Item>, i: nat)
    requires i < |items| && items[i].asked
    ensures Place(items, i) < |Chosen(items)| && Chosen(items)[Place(items, i)] == items[i].text
  {
    var n := |items| - 1;
    if i == n {
    } else {
      ChosenAt(items[..n], i);
      assert items[..n][..i] == items[..i];
    }
  }

  lemma {:induction false} ChosenFrom(items: seq<Item>)
    requires forall k :: 0 <= k < |items| && items[k].asked ==> PlainCommand(items[k].text)
    ensures forall c <- Chosen(items) :: PlainCommand(c)
  {
    hide PlainCommand;
    if items == [] {
    } else {
      ChosenFrom(items[..|items| - 1]);
    }
  }

  /** Every option asked for finds at its place in the reply what the handlers say to its command, provided
      that none of them says a separator. */
  lemma OptionGetsItsAnswer(w: World, clock: nat, items: seq<Item>, i: nat)
    requires forall k :: 0 <= k < |items| && items[k].asked ==> PlainCommand(items[k].text)
    requires i < |items| && items[i].asked
    requires var commands := Chosen(items);
      forall k :: 0 <= k < |commands| ==>
        var said := w.handle(clock + k, Normal(commands[k])); said.Some? ==> ';' !in said.value
    ensures var replies := SplitAll(Translation(w, clock, Lines(Message(Join(Chosen(items))))));
      && |replies| == |Chosen(items)|
      && Place(items, i) < |replies|
      && Handled(w, clock + Place(items, i), items[i].text, replies[Place(items, i)])
  {
    hide Join, SplitAll, Lines, Normal, Chosen, PlainCommand, Handled;
    ChosenAt(items, i);
    ChosenFrom(items);
    PlainCommandsAreHandled(w, clock, Chosen(items));
  }

  lemma NothingAskedIsOneLine(items: seq<Item>)
    requires forall k :: 0 <= k < |items| ==> !items[k].asked
    ensures Lines(Message(Join(Chosen(items)))) == [""]
  {
    NoneChosen(items);
    CommandRoundTrip([]);
  }

  lemma {:induction false} NoneChosen(items: seq<Item>)
    requires forall k :: 0 <= k < |items| ==> !items[k].asked
    ensures Chosen(items) == []
  {
    if items == [] {
    } else {
      NoneChosen(items[..|items| - 1]);
    }
  }

  // ----- A getter and the appender of the measurement setter

  class CommandList {
    var items: seq<string>

    constructor ()
      ensures items == []
    {
      items := [];
    }

    method Append(command: string)
      modifies this
      ensures items == old(items) + [command]
    {
      items := items + [command];
    }
  }

  /** `addOrDelete`: nothing for an option that was not given, else exactly one of the two commands. */
  method AddOrDelete(ch: string, param: Option<bool>, value: string, command: CommandList)
    modifies command
    ensures command.items == old(command.items) +
      Chosen([Item(param == Some(true), ":MEASure" + ch + ":ADD " + value),
              Item(param == Some(false), ":MEASure" + ch + ":DELete " + value)])
    ensures param == None ==> command.items == old(command.items)
    ensures param == Some(true) ==> command.items == old(command.items) + [":MEASure" + ch + ":ADD " + value]
    ensures param == Some(false) ==> command.items == old(command.items) + [":MEASure" + ch + ":DELete " + value]
  {
    var add, del := Item(param == Some(true), ":MEASure" + ch + ":ADD " + value),
                    Item(param == Some(false), ":MEASure" + ch + ":DELete " + value);
    ChosenSnoc([], add);
    ChosenSnoc([add], del);
    assert [] + [add] == [add] && [add] + [del] == [add, del];
    if param.None? {
      return;
    }
    if param.value {
      command.Append(":MEASure" + ch + ":ADD " + value);
    }
    if !param.value {
      command.Append(":MEASure" + ch + ":DELete " + value);
    }
  }

  /** The options of `get_aquire`. */
  function AquireItems(typ: bool, aver: bool, mdep: bool): seq<Item> {
    [Item(typ, ":ACQuire:TYPE?"), Item(aver, ":ACQuire:AVERage?"), Item(mdep, ":ACQuire:MDEPth?")]
  }

  lemma AquireAt(typ: bool, aver: bool, mdep: bool)
    ensures var items := AquireItems(typ, aver, mdep);
      && |items| == 3
      && items[0] == Item(typ, ":ACQuire:TYPE?")
      && items[1] == Item(aver, ":ACQuire:AVERage?")
      && items[2] == Item(mdep, ":ACQuire:MDEPth?")
  {
  }

  lemma JoinThree(a: string, b: string, c: string)
    ensures Join([a, b]) == a + ";" + b && Join([a, b, c]) == a + ";" + b + ";" + c
  {
    assert [a, b][1..] == [b] && [a, b, c][1..] == [b, c] && [b, c][1..] == [c];
    assert Join([b]) == b && Join([c]) == c;
    assert Join([b, c]) == b + ";" + c && Join([a, b, c]) == a + ";" + Join([b, c]);
    assert a + ";" + (b + ";" + c) == a + ";" + b + ";" + c;
  }

  /** What `get_aquire` sends for each choice of its options. */
  lemma AquireSends(typ: bool, aver: bool, mdep: bool)
    ensures Join(Chosen(AquireItems(typ, aver, mdep))) ==
            match (typ, aver, mdep)
            case (false, false, false) => ""
            case (true, false, false) => ":ACQuire:TYPE?"
            case (false, true, false) => ":ACQuire:AVERage?"
            case (false, false, true) => ":ACQuire:MDEPth?"
            case (true, true, false) => ":ACQuire:TYPE?" + ";" + ":ACQuire:AVERage?"
            case (true, false, true) => ":ACQuire:TYPE?" + ";" + ":ACQuire:MDEPth?"
            case (false, true, true) => ":ACQuire:AVERage?" + ";" + ":ACQuire:MDEPth?"
            case (true, true, true) => ":ACQuire:TYPE?" + ";" + ":ACQuire:AVERage?" + ";" + ":ACQuire:MDEPth?"
  {
    hide Chosen, AquireItems;
    var items := AquireItems(typ, aver, mdep);
    AquireAt(typ, aver, mdep);
    JoinChosen(items, items[0].text, items[1].text, items[2].text);
  }

  lemma ChosenOfThree(items: seq<Item>)
    requires |items| == 3
    ensures Chosen(items) == (if items[0].asked then [items[0].text] else []) +
                             (if items[1].asked then [items[1].text] else []) +
                             (if items[2].asked then [items[2].text] else [])
  {
    hide Chosen;
    assert items[..0] == [] && items[..3] == items;
    NoneChosen(items[..0]);
    ChosenUpTo(items, 0);
    ChosenUpTo(items, 1);
    ChosenUpTo(items, 2);
  }

  lemma JoinChosen(items: seq<Item>, a: string, b: string, c: string)
    requires |items| == 3 && items[0].text == a && items[1].text == b && items[2].text == c
    ensures Join(Chosen(items)) ==
            match (items[0].asked, items[1].asked, items[2].asked)
            case (false, false, false) => ""
            case (true, false, false) => a
            case (false, true, false) => b
            case (false, false, true) => c
            case (true, true, false) => a + ";" + b
            case (true, false, true) => a + ";" + c
            case (false, true, true) => b + ";" + c
            case (true, true, true) => a + ";" + b + ";" + c
  {
    hide Chosen;
    ChosenOfThree(items);
    JoinThree(a, b, c);
    JoinThree(a, c, "");
    JoinThree(b, c, "");
    assert [] + [a] == [a] && [a] + [b] == [a, b] && [a, b] + [c] == [a, b, c];
    assert [] + [b] == [b] && [a] + [c] == [a, c] && [b] + [c] == [b, c];
  }

  /** `get_aquire`, up to the call. */
  method GetAquire(typ: bool, aver: bool, mdep: bool) returns (command: string)
    ensures command == Join(Chosen(AquireItems(typ, aver, mdep)))
  {
    hide Join, Chosen, AquireItems;
    ghost var items := AquireItems(typ, aver, mdep);
    AquireAt(typ, aver, mdep);
    var list: seq<string> := [];
    assert list == Chosen(items[..0]) by { NoneChosen(items[..0]); }
    if typ {
      list := list + [":ACQuire:TYPE?"];
    }
    assert list == Chosen(items[..1]) by { ChosenUpTo(items, 0); }
    if aver {
      list := list + [":ACQuire:AVERage?"];
    }
    assert list == Chosen(items[..2]) by { ChosenUpTo(items, 1); }
    if mdep {
      list := list + [":ACQuire:MDEPth?"];
    }
    assert list == Chosen(items[..3]) by { ChosenUpTo(items, 2); }
    assert items[..3] == items;
    command := Join(list);
  }
}
