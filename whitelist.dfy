/**
 * The welcome whitelist as a value: the list of group ids the add and remove
 * commands edit, with Python's `in`, `list.append` and `list.remove`
 * semantics, and the fixed replies each edit produces.
 */
module Whitelist {

  const AlreadyListed := "该群组已在欢迎列表中"
  const NotListed := "该群组不在欢迎列表中"

  /** The confirmation of an add: the id can be read back from between its fixed head and tail. */
  function AddedText(groupId: string): (r: string)
    ensures |r| == |groupId| + 12 && r[6..|r| - 6] == groupId
    ensures r[0] == '已'
  {
    "已添加群组 " + groupId + " 到欢迎列表"
  }

  /** The confirmation of a remove: the id is everything after its fixed head. */
  function RemovedText(groupId: string): (r: string)
    ensures |r| == |groupId| + 12 && r[12..] == groupId
    ensures r[0] == '已'
  {
    "已从欢迎列表中删除群组 " + groupId
  }

  /** No group id occurs twice. */
  predicate NoDuplicates(groups: seq<string>) {
    forall i, j :: 0 <= i < j < |groups| ==> groups[i] != groups[j]
  }

  /** The position of the first occurrence of `x` in `s`. */
  function FirstIndex(s: seq<string>, x: string): (i: nat)
    requires x in s
    ensures i < |s| && s[i] == x
    ensures x !in s[..i]
  {
    if s[0] == x then 0
    else
      assert s[1..][..FirstIndex(s[1..], x)] == s[..FirstIndex(s[1..], x) + 1][1..];
      1 + FirstIndex(s[1..], x)
  }

  /** `list.remove(x)` as Python runs it: scan from the front and drop the first element equal to `x`. */
  function RemoveFirst(s: seq<string>, x: string): (r: seq<string>)
    ensures x !in s ==> r == s
    ensures x in s ==> r == s[..FirstIndex(s, x)] + s[FirstIndex(s, x) + 1..]
    ensures x in s ==> |r| == |s| - 1
    ensures forall y :: y in r ==> y in s
  {
    if s == [] then []
    else if s[0] == x then s[1..]
    else
      var rest := RemoveFirst(s[1..], x);
      RemoveFirstStep(s, x, rest);
      [s[0]] + rest
  }

  /** When the head is not `x`, splicing out `x` in the tail and keeping the head splices it out of the whole list. */
  lemma RemoveFirstStep(s: seq<string>, x: string, rest: seq<string>)
    requires s != [] && s[0] != x
    requires x in s[1..] ==> rest == s[1..][..FirstIndex(s[1..], x)] + s[1..][FirstIndex(s[1..], x) + 1..]
    ensures x in s ==> [s[0]] + rest == s[..FirstIndex(s, x)] + s[FirstIndex(s, x) + 1..]
  {
    if x in s {
      assert x in s[1..];
      assert FirstIndex(s, x) == 1 + FirstIndex(s[1..], x);
    }
  }

  /** The whitelist after an add command: appended to the end unless already present. */
  function Add(groups: seq<string>, groupId: string): (r: seq<string>)
    ensures groupId in r
    ensures forall x :: x in r <==> x in groups || x == groupId
  {
    if groupId in groups then groups else groups + [groupId]
  }

  /** The reply to an add: the "already listed" notice exactly when the id is present, else the confirmation naming it. */
  function AddReply(groups: seq<string>, groupId: string): (r: string)
    ensures r == AlreadyListed <==> groupId in groups
    ensures r != AlreadyListed ==> r == AddedText(groupId) && r[6..|r| - 6] == groupId
  {
    if groupId in groups then AlreadyListed else AddedText(groupId)
  }

  /** The reply to a remove: the "not listed" notice exactly when the id is absent, else the confirmation naming it. */
  function RemoveReply(groups: seq<string>, groupId: string): (r: string)
    ensures r == NotListed <==> groupId !in groups
    ensures r != NotListed ==> r == RemovedText(groupId) && r[12..] == groupId
  {
    if groupId in groups then RemovedText(groupId) else NotListed
  }

  /** An add saves (its membership check passes) exactly when it changes the list, and then only appends. */
  lemma AddSavesIffChanged(groups: seq<string>, groupId: string)
    ensures groupId !in groups <==> Add(groups, groupId) != groups
    ensures groupId !in groups ==> Add(groups, groupId)[..|groups|] == groups
  {
  }

  /** A remove saves (its membership check passes) exactly when it changes the list. */
  lemma RemoveSavesIffChanged(groups: seq<string>, groupId: string)
    ensures groupId in groups <==> RemoveFirst(groups, groupId) != groups
  {
  }

  /** Removing deletes exactly one copy of the id and keeps every other element. */
  lemma {:induction false} RemoveFirstMultiset(s: seq<string>, x: string)
    ensures multiset(RemoveFirst(s, x)) == multiset(s) - multiset{x}
  {
    if s != [] {
      assert s == [s[0]] + s[1..];
      RemoveFirstMultiset(s[1..], x);
    }
  }

  /** Adding keeps the list free of duplicates. */
  lemma AddKeepsNoDuplicates(groups: seq<string>, groupId: string)
    requires NoDuplicates(groups)
    ensures NoDuplicates(Add(groups, groupId))
  {
  }

  /** Removing keeps the list free of duplicates, and afterwards the id is gone. */
  lemma RemoveKeepsNoDuplicates(groups: seq<string>, groupId: string)
    requires NoDuplicates(groups)
    ensures NoDuplicates(RemoveFirst(groups, groupId))
    ensures groupId !in RemoveFirst(groups, groupId)
  {
  }

  /** Adding a fresh id and then removing it gives back the original list exactly. */
  lemma AddThenRemove(groups: seq<string>, groupId: string)
    requires groupId !in groups
    ensures RemoveFirst(Add(groups, groupId), groupId) == groups
  {
  }

  /** Adding an id twice is the same as adding it once. */
  lemma AddIdempotent(groups: seq<string>, groupId: string)
    ensures Add(Add(groups, groupId), groupId) == Add(groups, groupId)
  {
  }
}
