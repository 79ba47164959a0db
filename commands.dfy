/**
 * Recognising the administrative commands in a group text message: the
 * message must be non-empty and come from a monitored group; a command is
 * recognised by prefix (`str.startswith`), add before remove, and its target
 * is the second whitespace-separated token.
 */
module Commands {
  import opened Wrappers
  import opened Text
  import opened Values

  const AddPrefixes: seq<string> := ["add_group", "添加欢迎群"]
  const RemovePrefixes: seq<string> := ["remove_group", "删除欢迎群"]
  const AddPrompt := "请提供要添加的群号"
  const RemovePrompt := "请提供要删除的群号"

  /** What the message handler does with one message. */
  datatype Command =
    | Ignored
    | Prompt(text: string)
    | AddCommand(groupId: string)
    | RemoveCommand(groupId: string)

  /** The command a message from a monitored group asks for. */
  function Parse(message: string): (c: Command)
    ensures c == Ignored <==> !StartsWithAny(message, AddPrefixes) && !StartsWithAny(message, RemovePrefixes)
    ensures c.Prompt? ==> |Split(message)| < 2 && (c.text == AddPrompt || c.text == RemovePrompt)
    ensures (c.AddCommand? || (c.Prompt? && c.text == AddPrompt)) <==> StartsWithAny(message, AddPrefixes)
    ensures (c.AddCommand? || c.RemoveCommand?) ==> 2 <= |Split(message)| && c.groupId == Split(message)[1]
    ensures (c.AddCommand? || c.RemoveCommand?) ==> IsToken(c.groupId)
  {
    if StartsWithAny(message, AddPrefixes) then
      var parts := Split(message);
      if |parts| < 2 then Prompt(AddPrompt) else AddCommand(parts[1])
    else if StartsWithAny(message, RemovePrefixes) then
      var parts := Split(message);
      if |parts| < 2 then Prompt(RemovePrompt) else RemoveCommand(parts[1])
    else
      Ignored
  }

  /** The message is looked at: it has text and its group id is truthy and, as `str`, monitored. */
  predicate Admitted(message: Option<string>, groupId: Value, monitorGroups: seq<string>)
    ensures Admitted(message, groupId, monitorGroups) ==>
      message.Some? && 0 < |message.value| && Str(groupId) in monitorGroups
    ensures groupId == NoneValue || groupId == IntValue(0) || groupId == StrValue("") ==>
      !Admitted(message, groupId, monitorGroups)
  {
    message.Some? && message.value != "" && Truthy(groupId) && Str(groupId) in monitorGroups
  }

  /** The whole decision of the message handler for one event. */
  function Dispatch(message: Option<string>, groupId: Value, monitorGroups: seq<string>): (c: Command)
    ensures !Admitted(message, groupId, monitorGroups) ==> c == Ignored
    ensures Admitted(message, groupId, monitorGroups) ==> c == Parse(message.value)
  {
    if message.None? || message.value == "" then Ignored
    else if !Truthy(groupId) || Str(groupId) !in monitorGroups then Ignored
    else Parse(message.value)
  }

  /** No message starts with both an add and a remove prefix, so the order of the two checks is never observable. */
  lemma PrefixesExclusive(message: string)
    ensures !(StartsWithAny(message, AddPrefixes) && StartsWithAny(message, RemovePrefixes))
  {
    if StartsWithAny(message, AddPrefixes) {
      var i :| 0 <= i < |AddPrefixes| && StartsWith(message, AddPrefixes[i]);
      assert message[0] == AddPrefixes[i][0];
      assert message[0] == 'a' || message[0] == '添';
    }
  }

  /** The first word of a message `p + w + tail` that begins with prefix `p`. */
  lemma CommandWord(p: string, w: string, tail: string)
    requires p in AddPrefixes || p in RemovePrefixes
    requires NoSpace(w)
    ensures IsToken(p + w)
    ensures StartsWith(p + w + tail, p)
  {
  }

  /**
   * A message whose first word begins with an add prefix (`add_groupX` included)
   * and which has a second word adds that second word, whatever whitespace
   * separates and follows the words; further words are ignored.
   */
  lemma ParseAdd(i: nat, w: string, words: seq<string>, gaps: seq<string>)
    requires i < |AddPrefixes| && NoSpace(w)
    requires 2 <= |words| && words[0] == AddPrefixes[i] + w
    requires Layout(words, gaps)
    ensures Parse(Spaced(words, gaps)) == AddCommand(words[1])
  {
    var p := AddPrefixes[i];
    var tail := gaps[0] + Spaced(words[1..], gaps[1..]);
    CommandWord(p, w, tail);
    assert Spaced(words, gaps) == p + w + tail;
    SplitSpaced("", words, gaps);
    assert "" + Spaced(words, gaps) == Spaced(words, gaps);
    assert StartsWithAny(Spaced(words, gaps), AddPrefixes);
  }

  /** The same for the remove prefixes, which are reached because no add prefix matches. */
  lemma ParseRemove(i: nat, w: string, words: seq<string>, gaps: seq<string>)
    requires i < |RemovePrefixes| && NoSpace(w)
    requires 2 <= |words| && words[0] == RemovePrefixes[i] + w
    requires Layout(words, gaps)
    ensures Parse(Spaced(words, gaps)) == RemoveCommand(words[1])
  {
    var p := RemovePrefixes[i];
    var tail := gaps[0] + Spaced(words[1..], gaps[1..]);
    CommandWord(p, w, tail);
    assert Spaced(words, gaps) == p + w + tail;
    SplitSpaced("", words, gaps);
    assert "" + Spaced(words, gaps) == Spaced(words, gaps);
    assert StartsWithAny(Spaced(words, gaps), RemovePrefixes);
    PrefixesExclusive(Spaced(words, gaps));
  }

  /** A command word with no target, trailing whitespace or not, gets the prompt, add or remove according to its prefix. */
  lemma ParseMissingTarget(p: string, w: string, trail: string)
    requires p in AddPrefixes || p in RemovePrefixes
    requires NoSpace(w) && AllSpace(trail)
    ensures Parse(p + w + trail) == Prompt(if p in AddPrefixes then AddPrompt else RemovePrompt)
  {
    CommandWord(p, w, trail);
    SplitTokenThen(p + w, trail);
    SplitSkipsSpace(trail, "");
    assert trail + "" == trail;
    PrefixesExclusive(p + w + trail);
  }

  /**
   * `add_group <g>` from a monitored group adds `<g>`, with any whitespace between
   * and after (for instance `add_group 200` or `add_group\t200\n` from group `100`, monitored).
   */
  lemma AddCommandFromMonitoredGroup(group: string, monitorGroups: seq<string>, gap: string, g: string, trail: string)
    requires group != "" && group in monitorGroups
    requires gap != [] && AllSpace(gap) && AllSpace(trail)
    requires IsToken(g)
    ensures Dispatch(Some("add_group" + gap + g + trail), StrValue(group), monitorGroups) == AddCommand(g)
  {
    var words, gaps := ["add_group", g], [gap, trail];
    assert Layout(words, gaps);
    ParseAdd(0, "", words, gaps);
    assert Spaced(words[1..], gaps[1..]) == g + trail + Spaced([], []);
    assert Spaced(words, gaps) == "add_group" + gap + g + trail;
  }

  /** Two spaces and a trailing newline: `add_group  <g>\n` still adds `<g>`. */
  lemma ParseOddSpacing(g: string)
    requires IsToken(g)
    ensures Parse("add_group  " + g + "\n") == AddCommand(g)
  {
    var words, gaps := ["add_group", g], ["  ", "\n"];
    assert Layout(words, gaps);
    ParseAdd(0, "", words, gaps);
    assert Spaced(words[1..], gaps[1..]) == g + "\n" + Spaced([], []);
    assert Spaced(words, gaps) == "add_group  " + g + "\n";
  }

  /** A bare `add_group` gets the prompt and changes nothing. */
  lemma MissingTargetExample()
    ensures Dispatch(Some("add_group"), StrValue("100"), ["100"]) == Prompt(AddPrompt)
  {
    ParseMissingTarget("add_group", "", "");
    assert "add_group" + "" + "" == "add_group";
  }
}
