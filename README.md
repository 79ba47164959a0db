# Welcome plugin for a group chat bot — Dafny model

The plugin (`main.py`) lives inside a chat-bot host. It does two things:

- **Command handling.** It reads group text messages from *monitored* groups and
  recognises two administrative commands, `add_group <id>` / `添加欢迎群 <id>` and
  `remove_group <id>` / `删除欢迎群 <id>`. These edit the *welcome whitelist*
  (`welcome_groups`), a list of group-id strings. Each successful edit is
  written back to the host's configuration store.
- **Join greetings.** It reads every raw platform event. When one is a
  member-join notice for a whitelisted group, it sends a greeting: an optional
  mention of the new member and a space, then the configured welcome text.

The model is split into one module per concern:

| file | module | what it holds |
|---|---|---|
| `wrappers.dfy` | `Wrappers` | `Option`, for settings and messages that may be missing |
| `text.dfy` | `Text` | Python's `str.startswith` with a tuple of prefixes and `str.split()` with no separator, plus `" ".join` as its partner |
| `values.dfy` | `Values` | the loosely typed values of a notice, Python truthiness and `str()` (including the decimal text of an int) |
| `whitelist.dfy` | `Whitelist` | the whitelist as a value: `in`, append, `list.remove` (first occurrence), the fixed replies |
| `commands.dfy` | `Commands` | the command parser: admission (non-empty text, monitored group), prefix dispatch with add before remove, the second token as target |
| `notices.dfy` | `Notices` | classification of a raw event as a join notice, and the greeting segment chain |
| `plugin.dfy` | `Plugin` | class `WelcomePlugin`: its fields, the in-place edits, the two handlers |

The plugin is a class because the source changes its `welcome_groups` field in
place. `AddGroup`, `RemoveGroup` and `HandleGroupMessage` are methods with
`modifies` clauses. Each one states the new whitelist, the replies and the save
log in terms of the old state. `HandleGroupIncrease` only reads the object, so it
is a function with a `reads` clause. The host's `config.save_config()` is
modelled by a ghost field `saved`, the list of whitelists written so far, one
entry per save. "Saved exactly once" therefore means "`saved` grew by exactly
one entry, equal to the new whitelist".

Commands are recognised by prefix, as `message.startswith(...)` does in the
source. So `add_groupfoo 123` is an add command for `123`, and `添加欢迎群123` (no
space) is a command with no target that gets the prompt. `Commands.Parse` and
`Commands.ParseAdd` state the prefix match, and `Commands.ParseMissingTarget`
states that a command word with nothing after it gets the prompt. The words may
be separated and followed by any whitespace `str.split()` recognises (several
spaces, tabs, newlines, U+3000): `Text.SplitSpaced` and `Text.LayoutExists`
pin `str.split()` down for every string.

## Model

| member | source | states |
|---|---|---|
| `Plugin.WelcomePlugin.constructor` | main.py:14-20 | each setting is the stored value or its default: greetings on, mentions on, `欢迎新成员加入！`, empty whitelist, no monitored groups; nothing saved yet |
| `Plugin.WelcomePlugin.SaveConfig` | main.py:30-32 | a save appends the current whitelist to the log of persisted whitelists |
| `Plugin.WelcomePlugin.AddGroup` | main.py:22-34 | present id: list unchanged, no save, reply `该群组已在欢迎列表中`; absent id: appended at the end, earlier elements kept, exactly one save of the new list, reply `已添加群组 <id> 到欢迎列表`; no duplicates before means none after |
| `Plugin.WelcomePlugin.RemoveGroup` | main.py:36-48 | absent id: list unchanged, no save, reply `该群组不在欢迎列表中`; present id: first occurrence deleted as `list.remove` does, exactly one save, reply `已从欢迎列表中删除群组 <id>`; no duplicates before means none after and the id is gone |
| `Plugin.WelcomePlugin.HandleGroupMessage` | main.py:51-87 | ignored message: no reply, no change, no save; prompt: one reply, no change; add or remove command: the whitelist, reply and save log of the corresponding edit on the second token; no duplicates before means none after |
| `Plugin.WelcomePlugin.HandleGroupIncrease` | main.py:94-125 | at most one reply; a reply exactly for a join notice with greetings on and a whitelisted group; that reply is the greeting chain; the plugin is only read |
| `Whitelist.FirstIndex` | main.py:42 | the position of the first element equal to the id: it holds the id and no earlier element does |
| `Whitelist.RemoveFirst` | main.py:42 | `list.remove` scanning from the front equals splicing out the element at the first index; an absent id leaves the list as it is; a present id makes the list one shorter; no element is introduced |
| `Whitelist.Add` | main.py:24-28 | afterwards the id is in the list, and the members are exactly the old members plus the id |
| `Whitelist.AddedText` | main.py:34 | the add confirmation names the id: it reads back from between the fixed head `已添加群组 ` and tail ` 到欢迎列表` |
| `Whitelist.RemovedText` | main.py:48 | the remove confirmation names the id: it reads back from after the fixed head `已从欢迎列表中删除群组 ` |
| `Whitelist.AddReply` | main.py:24-34 | the reply is `该群组已在欢迎列表中` exactly when the id is already listed, otherwise the confirmation naming the id |
| `Whitelist.RemoveReply` | main.py:38-48 | the reply is `该群组不在欢迎列表中` exactly when the id is not listed, otherwise the confirmation naming the id |
| `Whitelist.AddSavesIffChanged` | main.py:24-32 | an add saves exactly when it changes the list, and then the old list is a prefix of the new one |
| `Whitelist.RemoveSavesIffChanged` | main.py:38-46 | a remove saves exactly when it changes the list |
| `Whitelist.RemoveFirstMultiset` | main.py:42 | removing deletes one copy of the id and keeps every other element (multiset difference) |
| `Whitelist.AddKeepsNoDuplicates` | main.py:24-28 | add never introduces a duplicate id |
| `Whitelist.RemoveKeepsNoDuplicates` | main.py:38-42 | remove keeps the list duplicate-free, and the removed id is then absent |
| `Whitelist.AddThenRemove` | main.py:28-42 | adding a fresh id and then removing it restores the original list exactly |
| `Whitelist.AddIdempotent` | main.py:24-28 | adding the same id twice is the same as adding it once |
| `Text.StartsWithAny` | main.py:68 | `startswith` with a tuple, trying the prefixes left to right, holds exactly when some prefix of the tuple matches |
| `Text.WordLength` | main.py:69 | the leading run of non-whitespace characters is whitespace-free and ends at whitespace or at the end |
| `Text.Split` | main.py:69 | every token of `str.split()` is non-empty and whitespace-free |
| `Text.SplitJoin` | main.py:69-73 | splitting space-joined tokens gives back the tokens |
| `Text.SplitSkipsSpace` | main.py:69 | leading whitespace of any kind does not change the split |
| `Text.SplitTokenThen` | main.py:69 | a token followed by whitespace or by the end is the first token of the split, and the split goes on with the rest |
| `Text.SplitSpaced` | main.py:69-73 | tokens with any whitespace before them, at least one whitespace character between them and any after them split back into exactly those tokens |
| `Text.LayoutExists` | main.py:69 | every string is whitespace followed by such a layout of tokens, so `Text.SplitSpaced` fixes the split of every string |
| `Text.SplitKeepsEveryOtherCharacter` | main.py:69 | concatenated, the tokens are the message with its whitespace deleted |
| `Values.Truthy` | main.py:117 | `None` is false; an int is false exactly when its text is `0`; a string is false exactly when it is empty |
| `Values.Str` | main.py:109 | `str(None)` is `None`; a string is itself; an int prints as a sign exactly when negative, then a numeral without leading zeros that reads back as its magnitude |
| `Values.Decimal` | main.py:109 | the text of a natural number is a non-empty digit string without a leading zero |
| `Values.DecimalRoundTrip` | main.py:109 | reading the decimal text back gives the number |
| `Values.StrOfIntInjective` | main.py:109-110 | two integer group ids with the same text are equal, so a whitelisted id matches at most one integer id |
| `Values.IntNeverPrintsAsNone` | main.py:109-110 | an integer group id never has the text `None` of a missing one |
| `Wrappers.Option.GetOr` | main.py:16-20 | `config.get(key, default)`: the stored value when there is one, otherwise the default |
| `Commands.Admitted` | main.py:57-63 | an admitted message has non-empty text and a group whose text is monitored; a `None`, `0` or empty group id is never admitted |
| `Commands.Parse` | main.py:68-87 | ignored exactly when neither an add nor a remove prefix matches; add prompt or add command exactly when an add prefix matches; a command's target is the second whitespace token and is a proper token; a prompt only with fewer than two tokens |
| `Commands.Dispatch` | main.py:55-63 | empty or missing text, a falsy group id or an unmonitored group gives nothing; otherwise the parsed command |
| `Commands.PrefixesExclusive` | main.py:68-79 | no message starts with both an add and a remove prefix |
| `Commands.ParseAdd` | main.py:68-76 | a first word beginning with an add prefix (with any suffix) followed by more words adds the second word, whatever whitespace separates and follows the words |
| `Commands.ParseRemove` | main.py:79-87 | the same for the remove prefixes |
| `Commands.ParseMissingTarget` | main.py:68-83 | a command word alone, with or without trailing whitespace, gets the add or remove prompt according to its prefix |
| `Commands.AddCommandFromMonitoredGroup` | main.py:55-76 | `add_group`, any non-empty whitespace, `<g>` and any trailing whitespace, from a monitored group, is the add command for `<g>` |
| `Commands.ParseOddSpacing` | main.py:68-76 | `add_group`, two spaces, `<g>` and a newline is the add command for `<g>` |
| `Commands.MissingTargetExample` | main.py:68-72 | a bare `add_group` from a monitored group gets `请提供要添加的群号` |
| `Notices.Get` | main.py:105-113 | `dict.get`: the stored value for a present key; `None` exactly when the key is missing or holds `None` |
| `Notices.Classify` | main.py:100-113 | a join notice exactly for a non-empty dict with `post_type` `notice` and `notice_type` `group_increase`; its group is `str(group_id)` and its user `user_id` |
| `Notices.Chain` | main.py:113-123 | one or three segments, the welcome text last; a mention first exactly when mentions are on and the user id is truthy, then a single space |
| `Notices.Greeting` | main.py:100-125 | a greeting exactly for a join notice with greetings on and a whitelisted group, and then it is the chain |
| `Notices.GreetsExactlyWhen` | main.py:101-111 | the full condition for a greeting, stated on the raw dict |
| `Notices.MissingGroupIdReadsAsNone` | main.py:109-111 | a join notice without `group_id` is greeted exactly when `None` is whitelisted |
| `Notices.IntegerGroupId` | main.py:109-111 | a join notice with integer group id `n` is greeted, for any whitelist and mention setting, exactly when `str(n)` is whitelisted; for `n >= 0` that is its decimal numeral |
| `Notices.IntegerGroupIdIsNotNone` | main.py:109-111 | an integer group id is never greeted through a whitelisted `None` |
| `Notices.GreetingSegments` | main.py:113-125 | with mentions on, a joining user `u` gets `[At(u), Plain(" "), Plain(text)]`; with mentions off, `[Plain(text)]` |

## Left out

- The host framework (`register`, the event-type filters, `Star`, `Context`, `plain_result`, `chain_result`) is not part of this model. Its results are the `Reply` and `Segment` datatypes.
- Persistence (`context.get_config()`, `config.save_config()`) is a ghost log of saved whitelists. A failing save is not modelled, because the source treats it as always succeeding.
- Aliasing is not modelled. The whitelist comes from the constructor's `config`, or is a fresh empty list when the key is missing (main.py:19). Each save goes through `self.context.get_config()` (main.py:30), and the source does not show whether that is the same object as the constructor's `config`. Before every save, main.py:31 assigns `self.welcome_groups` into that config, so from then on the two share one list. The model records only the whitelist written at each save.
- Logging, `traceback.format_exc()` and the catch-all `except Exception` blocks are left out. The handlers are total. A non-string message and an `Other` value whose `str()` fails are outside the model's input types.
- Values.Str: prints every int, however long. Python 3.10.7 and later refuse `str()` of an int with more than 4300 decimal digits under the default `sys.set_int_max_str_digits` limit. In the source, such a `group_id` would raise at main.py:109 and send no greeting (main.py:127-129), and such a message group id would raise at main.py:62 and handle no command (main.py:89-91). Such inputs are out of scope. The model instead prints the numeral, so `Notices.Greeting`, `Plugin.WelcomePlugin.HandleGroupIncrease` and `Commands.Dispatch` act on it when it is listed.
- The async generators and their scheduling are left out. Each handler returns its finite list of replies, in order.
- `HandleGroupMessage`: the message is an optional string, standing for `message_str` or its absence. The group id is a loosely typed value, so that `not group_id` and `str(group_id)` keep their Python meaning.
- `HandleGroupIncrease`: a missing `message_obj` or `raw_message` attribute is the `Absent` case. Notice values other than `None`, bools, ints and strings are `Other(text, truth)`: only their `str()` text and truth value matter. Such a value is assumed never to equal the strings `notice` or `group_increase` at main.py:105. That holds for every further JSON value a platform sends (numbers other than ints, lists, dicts). It fails for a `str` subclass and for an object with its own `__eq__`, such as `collections.UserString("notice")`; such values are out of scope.
- `welcome_groups` and `monitor_groups` hold strings. A stored list holding non-string ids (for example, ints) is not modelled. In the source, such a `monitor_groups` would never contain `str(group_id)`, so main.py:62 would ignore every message. Such a `welcome_groups` would never contain `str(group_id)` at main.py:110 either.
- `Whitelist.RemoveFirst` models Python's built-in `list.remove` as a function on the list's value. The in-place memory update of the built-in is not modelled.
- The invariant that the whitelist has no duplicates is kept, but it is not assumed at start-up, because the source loads the stored list without checking it. The methods therefore state it as preserved rather than as a class invariant.
