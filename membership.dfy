/** The subscription check of bot.js (`isUserSubscribed`): a fail-closed test of
    whether a user appears in the channel member list returned by the platform.
    The platform call itself is not modelled; its outcome is the `MembersReply`
    value. Identities are already normalised to numbers, so JavaScript's loose
    `==` between a member's `user_id` and the user id is equality here. */
module Membership {
  import opened Base

  /** One entry of the member list: an object, whose `userId` is None when it has no
      `user_id`, or a `null`/`undefined` entry, on which reading `user_id` throws. */
  datatype Member = Member(userId: Option<nat>) | NullEntry

  /** Entry `i` is an object carrying this user's id. */
  predicate Matches(entries: seq<Member>, i: nat, user: nat)
    requires i < |entries|
  {
    entries[i].Member? && entries[i].userId == Some(user)
  }

  /** `.some` visits entries in order and stops at the first match, so a `null`
      entry is only reached, and throws, when no earlier entry matched. */
  predicate ListedBeforeNull(entries: seq<Member>, user: nat) {
    exists i :: 0 <= i < |entries| && Matches(entries, i, user)
                && forall k :: 0 <= k < i ==> !entries[k].NullEntry?
  }

  /** A `members` property of the response, as far as `||` and `Array.isArray` tell
      values apart: falsy (missing, null, ...), an array, or some other truthy value. */
  datatype Field = Falsy | List(entries: seq<Member>) | NotAList

  /** The outcome of the members request: it threw, or it answered with an object
      whose `data.members` and `members` properties are the two fields. */
  datatype MembersReply = Failed | Response(dataMembers: Field, members: Field)

  /** `membersResult?.data?.members || membersResult?.members`. */
  function SelectMembers(reply: MembersReply): (f: Field)
    requires reply.Response?
    ensures !reply.dataMembers.Falsy? ==> f == reply.dataMembers
    ensures reply.dataMembers.Falsy? ==> f == reply.members
  {
    if reply.dataMembers.Falsy? then reply.members else reply.dataMembers
  }

  /** `entries.some(member => member.user_id == user)`, with the TypeError a `null`
      entry raises caught by the surrounding `try`, which makes the answer false. */
  function Lists(entries: seq<Member>, user: nat): (b: bool)
    ensures b <==> ListedBeforeNull(entries, user)
  {
    if entries == [] then false
    else if entries[0].NullEntry? then false
    else
      ListedStep(entries, user);
      entries[0].userId == Some(user) || Lists(entries[1..], user)
  }

  /** Past an object entry, the search continues in the rest of the array. */
  lemma ListedStep(entries: seq<Member>, user: nat)
    requires entries != [] && entries[0].Member?
    ensures ListedBeforeNull(entries, user) <==> Matches(entries, 0, user) || ListedBeforeNull(entries[1..], user)
  {
    var rest := entries[1..];
    if ListedBeforeNull(rest, user) {
      var i :| 0 <= i < |rest| && Matches(rest, i, user) && forall k :: 0 <= k < i ==> !rest[k].NullEntry?;
      assert Matches(entries, i + 1, user);
      forall k | 0 <= k < i + 1 ensures !entries[k].NullEntry? {
        if k > 0 { assert entries[k] == rest[k - 1]; }
      }
    }
    if ListedBeforeNull(entries, user) && !Matches(entries, 0, user) {
      var i :| 0 <= i < |entries| && Matches(entries, i, user) && forall k :: 0 <= k < i ==> !entries[k].NullEntry?;
      assert i > 0;
      assert Matches(rest, i - 1, user);
      forall k | 0 <= k < i - 1 ensures !rest[k].NullEntry? {
        assert rest[k] == entries[k + 1];
      }
    }
  }

  /** `isUserSubscribed(user)` given the outcome of the members request. */
  function IsUserSubscribed(user: nat, reply: MembersReply): (b: bool)
    ensures b ==> reply.Response?
    ensures b <==> reply.Response? && SelectMembers(reply).List?
                   && ListedBeforeNull(SelectMembers(reply).entries, user)
  {
    match reply
    case Failed => false
    case Response(_, _) =>
      match SelectMembers(reply)
      case List(entries) => Lists(entries, user)
      case _ => false
  }

  /** Fail closed: a failed request, or a response whose member field is not an
      array, never counts as subscribed, whoever the user is. */
  lemma FailClosed(user: nat, reply: MembersReply)
    requires reply.Failed? || !SelectMembers(reply).List?
    ensures !IsUserSubscribed(user, reply)
  {
  }

  /** A truthy `data.members` that is not an array hides a `members` array that
      lists the user: the `||` picks the former, and the check says no. */
  lemma DataMembersShadow(user: nat, entries: seq<Member>)
    ensures !IsUserSubscribed(user, Response(NotAList, List(entries)))
  {
  }

  /** When `data.members` is absent, the top-level `members` array decides. */
  lemma TopLevelMembersDecide(user: nat, entries: seq<Member>, others: seq<Member>)
    requires forall k :: 0 <= k < |entries| ==> !entries[k].NullEntry?
    ensures IsUserSubscribed(user, Response(Falsy, List(entries + [Member(Some(user))] + others)))
  {
    var all := entries + [Member(Some(user))] + others;
    assert Matches(all, |entries|, user);
    assert forall k :: 0 <= k < |entries| ==> all[k] == entries[k];
  }

  /** A `null` entry ahead of the user's entry throws inside `.some`, and the
      check says no; the same entry after the match is never reached. */
  lemma NullEntryOrder(user: nat)
    ensures !IsUserSubscribed(user, Response(Falsy, List([NullEntry, Member(Some(user))])))
    ensures IsUserSubscribed(user, Response(Falsy, List([Member(Some(user)), NullEntry])))
  {
    assert Matches([Member(Some(user)), NullEntry], 0, user);
  }
}
