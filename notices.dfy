/**
 * Classifying a raw platform event as a member-join notice and building the
 * greeting: an ordered segment list, optionally a mention of the new member
 * and a space, then the configured welcome text.
 */
module Notices {
  import opened Wrappers
  import opened Values

  /** The event's `raw_message`: missing, present but not a dict, or a dict of loosely typed values. */
  datatype RawMessage =
    | Absent
    | NotAMapping
    | Mapping(entries: map<string, Value>)

  /** One segment of an outgoing message: a mention of a user, or plain text. */
  datatype Segment = At(qq: Value) | Plain(text: string)

  /** What the handler makes of an event. */
  datatype Notice = MemberJoined(groupId: string, userId: Value) | Unrecognised

  /** `entries.get(key)`: the stored value, or `None` for a missing key, so a stored `None` and a missing key look alike. */
  function Get(entries: map<string, Value>, key: string): (v: Value)
    ensures key in entries ==> v == entries[key]
    ensures v == NoneValue <==> key !in entries || entries[key] == NoneValue
  {
    if key in entries then entries[key] else NoneValue
  }

  /** A non-empty dict whose `post_type` is `"notice"` and `notice_type` is `"group_increase"` is a join notice. */
  function Classify(raw: RawMessage): (n: Notice)
    ensures n.MemberJoined? <==>
      raw.Mapping? && raw.entries != map[] &&
      Get(raw.entries, "post_type") == StrValue("notice") &&
      Get(raw.entries, "notice_type") == StrValue("group_increase")
    ensures n.MemberJoined? ==>
      n.groupId == Str(Get(raw.entries, "group_id")) && n.userId == Get(raw.entries, "user_id")
  {
    match raw
    case Mapping(entries) =>
      if entries != map[] && Get(entries, "post_type") == StrValue("notice")
         && Get(entries, "notice_type") == StrValue("group_increase")
      then MemberJoined(Str(Get(entries, "group_id")), Get(entries, "user_id"))
      else Unrecognised
    case _ => Unrecognised
  }

  /** The greeting segments: a mention and a space only when mentions are on and the user id is truthy. */
  function Chain(isAt: bool, userId: Value, welcomeText: string): (c: seq<Segment>)
    ensures |c| == 1 || |c| == 3
    ensures c[|c| - 1] == Plain(welcomeText)
    ensures c[0].At? <==> isAt && Truthy(userId)
    ensures |c| == 3 ==> c[0] == At(userId) && c[1] == Plain(" ")
    ensures forall k :: 0 < k < |c| ==> c[k].Plain?
  {
    var mention := if isAt && Truthy(userId) then [At(userId), Plain(" ")] else [];
    mention + [Plain(welcomeText)]
  }

  /** The greeting for an event, or `None` when the handler sends nothing. */
  function Greeting(raw: RawMessage, isSendWelcome: bool, isAt: bool, welcomeText: string,
                    welcomeGroups: seq<string>): (r: Option<seq<Segment>>)
    ensures r.Some? <==>
      Classify(raw).MemberJoined? && isSendWelcome && Classify(raw).groupId in welcomeGroups
    ensures r.Some? ==> r.value == Chain(isAt, Classify(raw).userId, welcomeText)
  {
    match Classify(raw)
    case Unrecognised => None
    case MemberJoined(groupId, userId) =>
      if !isSendWelcome || groupId !in welcomeGroups then None
      else Some(Chain(isAt, userId, welcomeText))
  }

  /**
   * A greeting is sent exactly when the raw message is a non-empty dict with the two
   * discriminators, the welcome flag is on and `str(group_id)` is whitelisted.
   */
  lemma GreetsExactlyWhen(raw: RawMessage, isSendWelcome: bool, isAt: bool, welcomeText: string,
                          welcomeGroups: seq<string>)
    ensures Greeting(raw, isSendWelcome, isAt, welcomeText, welcomeGroups).Some? <==>
      raw.Mapping? && raw.entries != map[] &&
      Get(raw.entries, "post_type") == StrValue("notice") &&
      Get(raw.entries, "notice_type") == StrValue("group_increase") &&
      isSendWelcome && Str(Get(raw.entries, "group_id")) in welcomeGroups
  {
  }

  /** A join notice without `group_id` is looked up as the text `None`, so it is greeted only if `"None"` is whitelisted. */
  lemma MissingGroupIdReadsAsNone(entries: map<string, Value>, isAt: bool, welcomeText: string,
                                  welcomeGroups: seq<string>)
    requires "group_id" !in entries
    requires Get(entries, "post_type") == StrValue("notice")
    requires Get(entries, "notice_type") == StrValue("group_increase")
    ensures Greeting(Mapping(entries), true, isAt, welcomeText, welcomeGroups).Some? <==> "None" in welcomeGroups
  {
  }

  /**
   * A join notice whose `group_id` is an integer `n` is greeted exactly when the text of `n`
   * (its decimal numeral, signed if negative) is whitelisted, whatever the other settings.
   */
  lemma IntegerGroupId(entries: map<string, Value>, n: int, isAt: bool, welcomeText: string,
                       welcomeGroups: seq<string>)
    requires Get(entries, "post_type") == StrValue("notice")
    requires Get(entries, "notice_type") == StrValue("group_increase")
    requires Get(entries, "group_id") == IntValue(n)
    ensures Greeting(Mapping(entries), true, isAt, welcomeText, welcomeGroups).Some? <==>
      Str(IntValue(n)) in welcomeGroups
    ensures 0 <= n ==>
      (Greeting(Mapping(entries), true, isAt, welcomeText, welcomeGroups).Some? <==> Decimal(n) in welcomeGroups)
  {
    assert "post_type" in entries;
  }

  /** In particular an integer group id is never greeted through a whitelisted `None`, the text of a missing id. */
  lemma IntegerGroupIdIsNotNone(entries: map<string, Value>, n: int, isAt: bool, welcomeText: string)
    requires Get(entries, "post_type") == StrValue("notice")
    requires Get(entries, "notice_type") == StrValue("group_increase")
    requires Get(entries, "group_id") == IntValue(n)
    ensures Greeting(Mapping(entries), true, isAt, welcomeText, ["None"]) == None
  {
    IntegerGroupId(entries, n, isAt, welcomeText, ["None"]);
    IntNeverPrintsAsNone(n);
  }

  /** With mentions on, user `u` joining a whitelisted group gets `[At(u), Plain(" "), Plain(text)]`; with them off, `[Plain(text)]`. */
  lemma GreetingSegments(entries: map<string, Value>, u: int, welcomeText: string, group: string)
    requires Get(entries, "post_type") == StrValue("notice")
    requires Get(entries, "notice_type") == StrValue("group_increase")
    requires Get(entries, "group_id") == StrValue(group)
    requires Get(entries, "user_id") == IntValue(u) && u != 0
    ensures Greeting(Mapping(entries), true, true, welcomeText, [group]) ==
      Some([At(IntValue(u)), Plain(" "), Plain(welcomeText)])
    ensures Greeting(Mapping(entries), true, false, welcomeText, [group]) == Some([Plain(welcomeText)])
  {
    assert "post_type" in entries;
    assert Classify(Mapping(entries)) == MemberJoined(group, IntValue(u));
    assert Chain(true, IntValue(u), welcomeText) == [At(IntValue(u)), Plain(" "), Plain(welcomeText)];
    assert Chain(false, IntValue(u), welcomeText) == [Plain(welcomeText)];
  }
}
