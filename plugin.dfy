/**
 * The plugin object: its configuration fields, the two whitelist edits that
 * change `welcomeGroups` in place and persist it, the group-message command
 * handler and the join-notice handler.
 */
module Plugin {
  import opened Wrappers
  import opened Text
  import opened Values
  import opened Whitelist
  import opened Commands
  import opened Notices

  const DefaultWelcomeText := "欢迎新成员加入！"

  /** A result handed back to the host: a plain-text reply, or a chain of segments. */
  datatype Reply = PlainResult(text: string) | ChainResult(chain: seq<Segment>)

  /** The host's stored configuration; a key the store lacks is `None`. */
  datatype StoredConfig = StoredConfig(
    isSendWelcome: Option<bool>,
    isAt: Option<bool>,
    welcomeText: Option<string>,
    welcomeGroups: Option<seq<string>>,
    monitorGroups: Option<seq<string>>)

  class WelcomePlugin {
    var isSendWelcome: bool
    var isAt: bool
    var welcomeText: string
    var welcomeGroups: seq<string>
    var monitorGroups: seq<string>
    /** The whitelists written to the host's configuration store, oldest first, one per save. */
    ghost var saved: seq<seq<string>>

    /** Reads each setting from the store, falling back to its default. */
    constructor (config: StoredConfig)
      ensures isSendWelcome == config.isSendWelcome.GetOr(true)
      ensures isAt == config.isAt.GetOr(true)
      ensures welcomeText == config.welcomeText.GetOr(DefaultWelcomeText)
      ensures welcomeGroups == config.welcomeGroups.GetOr([])
      ensures monitorGroups == config.monitorGroups.GetOr([])
      ensures saved == []
    {
      isSendWelcome := config.isSendWelcome.GetOr(true);
      isAt := config.isAt.GetOr(true);
      welcomeText := config.welcomeText.GetOr(DefaultWelcomeText);
      welcomeGroups := config.welcomeGroups.GetOr([]);
      monitorGroups := config.monitorGroups.GetOr([]);
      saved := [];
    }

    /** Writes the current whitelist to the host's configuration store. */
    ghost method SaveConfig()
      modifies this`saved
      ensures saved == old(saved) + [welcomeGroups]
    {
      saved := saved + [welcomeGroups];
    }

    /** Adds a group to the whitelist unless it is already there; saves only when it adds. */
    method AddGroup(groupId: string) returns (replies: seq<Reply>)
      modifies this`welcomeGroups, this`saved
      ensures groupId in old(welcomeGroups) ==>
        welcomeGroups == old(welcomeGroups) && saved == old(saved) && replies == [PlainResult(AlreadyListed)]
      ensures groupId !in old(welcomeGroups) ==>
        welcomeGroups == old(welcomeGroups) + [groupId] && saved == old(saved) + [welcomeGroups] &&
        replies == [PlainResult(AddedText(groupId))]
      ensures NoDuplicates(old(welcomeGroups)) ==> NoDuplicates(welcomeGroups)
    {
      if groupId in welcomeGroups {
        replies := [PlainResult(AlreadyListed)];
        return;
      }
      if NoDuplicates(welcomeGroups) {
        AddKeepsNoDuplicates(welcomeGroups, groupId);
      }
      welcomeGroups := welcomeGroups + [groupId];
      SaveConfig();
      replies := [PlainResult(AddedText(groupId))];
    }

    /** Removes the first occurrence of a group from the whitelist if it is there; saves only when it removes. */
    method RemoveGroup(groupId: string) returns (replies: seq<Reply>)
      modifies this`welcomeGroups, this`saved
      ensures groupId !in old(welcomeGroups) ==>
        welcomeGroups == old(welcomeGroups) && saved == old(saved) && replies == [PlainResult(NotListed)]
      ensures groupId in old(welcomeGroups) ==>
        welcomeGroups == RemoveFirst(old(welcomeGroups), groupId) && saved == old(saved) + [welcomeGroups] &&
        replies == [PlainResult(RemovedText(groupId))]
      ensures NoDuplicates(old(welcomeGroups)) ==> NoDuplicates(welcomeGroups) && groupId !in welcomeGroups
    {
      if groupId !in welcomeGroups {
        replies := [PlainResult(NotListed)];
        return;
      }
      if NoDuplicates(welcomeGroups) {
        RemoveKeepsNoDuplicates(welcomeGroups, groupId);
      }
      welcomeGroups := RemoveFirst(welcomeGroups, groupId);
      SaveConfig();
      replies := [PlainResult(RemovedText(groupId))];
    }

    /**
     * Handles one group text message: nothing unless it has text and comes from a
     * monitored group; otherwise the command it starts with, if any.
     */
    method HandleGroupMessage(message: Option<string>, groupId: Value) returns (replies: seq<Reply>)
      modifies this`welcomeGroups, this`saved
      ensures match Dispatch(message, groupId, monitorGroups)
        case Ignored =>
          replies == [] && welcomeGroups == old(welcomeGroups) && saved == old(saved)
        case Prompt(text) =>
          replies == [PlainResult(text)] && welcomeGroups == old(welcomeGroups) && saved == old(saved)
        case AddCommand(g) =>
          welcomeGroups == Add(old(welcomeGroups), g) &&
          replies == [PlainResult(AddReply(old(welcomeGroups), g))] &&
          saved == old(saved) + (if g !in old(welcomeGroups) then [welcomeGroups] else [])
        case RemoveCommand(g) =>
          welcomeGroups == RemoveFirst(old(welcomeGroups), g) &&
          replies == [PlainResult(RemoveReply(old(welcomeGroups), g))] &&
          saved == old(saved) + (if g in old(welcomeGroups) then [welcomeGroups] else [])
      ensures NoDuplicates(old(welcomeGroups)) ==> NoDuplicates(welcomeGroups)
    {
      replies := [];
      if message.None? || message.value == "" {
        return;
      }
      if !Truthy(groupId) || Str(groupId) !in monitorGroups {
        return;
      }
      var text := message.value;
      if StartsWithAny(text, AddPrefixes) {
        var parts := Split(text);
        if |parts| < 2 {
          replies := [PlainResult(AddPrompt)];
          return;
        }
        replies := AddGroup(parts[1]);
        return;
      }
      if StartsWithAny(text, RemovePrefixes) {
        var parts := Split(text);
        if |parts| < 2 {
          replies := [PlainResult(RemovePrompt)];
          return;
        }
        replies := RemoveGroup(parts[1]);
        return;
      }
    }

    /** Handles any event: a greeting chain for a member joining a whitelisted group, otherwise nothing. */
    function HandleGroupIncrease(raw: RawMessage): (replies: seq<Reply>)
      reads this
      ensures |replies| <= 1
      ensures replies != [] <==>
        Classify(raw).MemberJoined? && isSendWelcome && Classify(raw).groupId in welcomeGroups
      ensures replies != [] ==>
        replies[0].ChainResult? && replies[0].chain == Chain(isAt, Classify(raw).userId, welcomeText)
    {
      match Greeting(raw, isSendWelcome, isAt, welcomeText, welcomeGroups)
      case None => []
      case Some(chain) => [ChainResult(chain)]
    }
  }
}
