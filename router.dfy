/** The `message_created` handler of bot.js as a decision: given the sessions map
    (user to manager, in insertion order), the configured operator `ADMIN_ID`,
    the sender and the text, which single relay action the handler takes. The
    sends themselves belong to the platform; the decision reads the map and never
    changes it. */
module Router {
  import opened Base
  import opened JsText
  import OrderedMap

  /** A split of `t` that `^(\d+)\s+(.+)$` with the `s` flag accepts: group 1 is
      `t[..i]` (digits), the whitespace is `t[i..j]`, group 2 is `t[j..]` (any
      non-empty remainder, line breaks included, since `s` lets `.` match them). */
  predicate PrefixSplit(t: string, i: nat, j: nat) {
    0 < i < j < |t| && All(t[..i], IsDigit) && All(t[i..j], IsSpace)
  }

  /** `text.match(/^(\d+)\s+(.+)$/s)` followed by `parseInt(match[1])`: the target
      id and `match[2]`, or None when the pattern does not match. The regex engine
      takes the longest digit run and then the longest whitespace run that still
      leaves one character for `(.+)`. */
  function ParsePrefix(t: string): (r: Option<(nat, string)>)
    ensures r.Some? ==> t != [] && IsDigit(t[0])
    ensures r.Some? ==> r.value.1 != [] && |r.value.1| < |t| && r.value.1 == t[|t| - |r.value.1|..]
  {
    var k := LeadingRun(t, IsDigit);
    if k == 0 then None
    else
      var rest := t[k..];
      var w := LeadingRun(rest, IsSpace);
      assert All(t[..k], IsDigit);
      if w == 0 then None
      else if w < |rest| then Some((DecimalValue(t[..k]), rest[w..]))
      else if w >= 2 then Some((DecimalValue(t[..k]), rest[w - 1..]))
      else None
  }

  lemma LeadingRunAtLeast(s: string, p: char -> bool, n: nat)
    requires n <= |s| && forall i :: 0 <= i < n ==> p(s[i])
    ensures LeadingRun(s, p) >= n
  {
  }

  /** Whatever `ParsePrefix` returns is a split the pattern accepts, with the
      target read from its digits and the body its remainder. */
  lemma ParsePrefixSound(t: string)
    requires ParsePrefix(t).Some?
    ensures exists i: nat, j: nat :: PrefixSplit(t, i, j) && ParsePrefix(t).value == (DecimalValue(t[..i]), t[j..])
  {
    var k := LeadingRun(t, IsDigit);
    var rest := t[k..];
    var w := LeadingRun(rest, IsSpace);
    var j := if w < |rest| then k + w else k + w - 1;
    assert t[j..] == rest[j - k..];
    assert forall x :: 0 <= x < j - k ==> t[k..j][x] == rest[x];
    assert forall x :: 0 <= x < k ==> t[..k][x] == t[x];
    assert PrefixSplit(t, k, j);
  }

  /** Whenever the pattern accepts some split, `ParsePrefix` matches, reads the
      same target, and keeps the shortest remainder (greedy whitespace). */
  lemma ParsePrefixComplete(t: string, i: nat, j: nat)
    requires PrefixSplit(t, i, j)
    ensures ParsePrefix(t).Some?
    ensures ParsePrefix(t).value.0 == DecimalValue(t[..i])
    ensures |ParsePrefix(t).value.1| <= |t| - j
  {
    assert forall x :: 0 <= x < i ==> t[..i][x] == t[x];
    assert t[i] == t[i..j][0];
    LeadingRunOf(t, IsDigit, i);
    var rest := t[i..];
    assert forall x :: 0 <= x < j - i ==> rest[x] == t[i..j][x];
    LeadingRunAtLeast(rest, IsSpace, j - i);
    var w := LeadingRun(rest, IsSpace);
    if w == |rest| {
      assert IsSpace(rest[j - i]);
    }
  }

  /** The operator's workflow: a rendered user id, one space and a body that does
      not start with whitespace address exactly that user with exactly that body. */
  lemma ParseAddressed(n: nat, body: string)
    requires body != [] && !IsSpace(body[0])
    ensures ParsePrefix(DecimalString(n) + " " + body) == Some((n, body))
  {
    var d := DecimalString(n);
    var t := d + " " + body;
    assert forall x :: 0 <= x < |d| ==> t[x] == d[x];
    assert t[|d|] == ' ';
    LeadingRunOf(t, IsDigit, |d|);
    assert t[..|d|] == d;
    DecimalRoundTrip(n);
    var rest := t[|d|..];
    assert rest == " " + body;
    LeadingRunOf(rest, IsSpace, 1);
    assert rest[1..] == body;
  }

  /** The single action `message_created` takes (sends to the platform are
      its effect). Where an action goes to the operator, the operator is the sender. */
  datatype Action =
    | NoOp
      /** forward the text to the session's manager, prefixed with the sender's id */
    | ToManager(manager: nat, sender: nat, text: Option<string>)
      /** send a manager reply to a user; `acknowledged`: the operator is told it was sent */
    | ToUser(target: nat, text: Option<string>, acknowledged: bool)
      /** tell the operator the addressed user has no open session */
    | NotInChat(target: nat)
      /** tell the operator which users have open sessions, asking for a prefix */
    | ListChats(users: seq<nat>)

  /** `text?.startsWith('/')`: commands are handled elsewhere. */
  predicate IsCommand(text: Option<string>) {
    text.Some? && |text.value| > 0 && text.value[0] == '/'
  }

  /** A message from the operator that no session claims. */
  function OperatorReply(chats: seq<(nat, nat)>, text: Option<string>): (a: Action)
    ensures a.ToUser? ==> OrderedMap.Has(chats, a.target)
    ensures a.ToUser? && a.acknowledged <==>
              text.Some? && ParsePrefix(text.value).Some? && OrderedMap.Has(chats, ParsePrefix(text.value).value.0)
    ensures a.NotInChat? ==> !OrderedMap.Has(chats, a.target)
    ensures a.ListChats? ==> |chats| > 1 && a.users == OrderedMap.Keys(chats)
    ensures a == NoOp ==> chats == []
    ensures !a.ToManager?
  {
    var parsed := if text.Some? then ParsePrefix(text.value) else None;
    match parsed
    case Some((target, body)) =>
      if OrderedMap.Has(chats, target) then ToUser(target, Some(body), true) else NotInChat(target)
    case None =>
      if |chats| == 1 then ToUser(chats[0].0, text, false)
      else if |chats| > 1 then ListChats(OrderedMap.Keys(chats))
      else NoOp
  }

  /** The `message_created` decision. */
  function Route(chats: seq<(nat, nat)>, admin: Option<nat>, sender: nat, text: Option<string>): (a: Action)
    ensures a.ToManager? <==> !IsCommand(text) && OrderedMap.Has(chats, sender)
    ensures a != NoOp ==> !IsCommand(text) && (OrderedMap.Has(chats, sender) || admin == Some(sender))
  {
    if IsCommand(text) then NoOp
    else
      match OrderedMap.Get(chats, sender)
      case Some(manager) => ToManager(manager, sender, text)
      case None => if admin == Some(sender) then OperatorReply(chats, text) else NoOp
  }

  /** What every action the router takes is entitled to: it forwards only along
      open sessions, lists exactly the open sessions, and answers only the operator. */
  lemma RouteRespectsSessions(chats: seq<(nat, nat)>, admin: Option<nat>, sender: nat, text: Option<string>)
    ensures var a := Route(chats, admin, sender, text);
      && (a.ToManager? ==> a.sender == sender && OrderedMap.Get(chats, sender) == Some(a.manager))
      && (a.ToUser? ==> OrderedMap.Has(chats, a.target) && a.target != sender && admin == Some(sender))
      && (a.NotInChat? ==> !OrderedMap.Has(chats, a.target) && admin == Some(sender))
      && (a.ListChats? ==> a.users == OrderedMap.Keys(chats) && |a.users| > 1 && admin == Some(sender))
      && (a != NoOp ==> !IsCommand(text))
  {
  }

  /** A sender with an open session is relayed to its manager, before any operator
      handling, even when the sender is the operator. */
  lemma SessionTakesPrecedence(chats: seq<(nat, nat)>, admin: Option<nat>, sender: nat, text: Option<string>)
    requires !IsCommand(text) && OrderedMap.Has(chats, sender)
    ensures Route(chats, admin, sender, text) == ToManager(OrderedMap.Get(chats, sender).value, sender, text)
  {
  }

  /** Anyone who is neither in a session nor the operator gets no action. */
  lemma StrangerIgnored(chats: seq<(nat, nat)>, admin: Option<nat>, sender: nat, text: Option<string>)
    requires !OrderedMap.Has(chats, sender) && admin != Some(sender)
    ensures Route(chats, admin, sender, text) == NoOp
  {
  }

  /** Any operator text the pattern accepts is routed by its prefix alone: to the
      parsed user with the parsed body when that user has a session, otherwise a
      "not in chat" reply; the number of open sessions plays no part. */
  lemma PrefixedReply(chats: seq<(nat, nat)>, op: nat, t: string)
    requires !OrderedMap.Has(chats, op) && ParsePrefix(t).Some?
    ensures var (target, body) := ParsePrefix(t).value;
      Route(chats, Some(op), op, Some(t))
        == if OrderedMap.Has(chats, target) then ToUser(target, Some(body), true) else NotInChat(target)
  {
  }

  /** Leading zeros, a line break or several tabs after the id still address the user. */
  lemma PrefixVariants()
    ensures ParsePrefix("007\nhi") == Some((7, "hi"))
    ensures ParsePrefix("12\t\tok") == Some((12, "ok"))
  {
    LeadingRunOf("007\nhi", IsDigit, 3);
    assert "007\nhi"[..3] == "007" && "007\nhi"[3..] == "\nhi";
    LeadingRunOf("\nhi", IsSpace, 1);
    assert DecimalValue("007") == 7 by {
      assert "007"[..2] == "00" && "00"[..1] == "0" && "0"[..0] == [];
    }
    LeadingRunOf("12\t\tok", IsDigit, 2);
    assert "12\t\tok"[..2] == "12" && "12\t\tok"[2..] == "\t\tok";
    LeadingRunOf("\t\tok", IsSpace, 2);
    assert DecimalValue("12") == 12 by {
      assert "12"[..1] == "1" && "1"[..0] == [];
    }
  }

  /** The operator's usual form: a rendered id, one space and a body. */
  lemma AddressedReply(chats: seq<(nat, nat)>, op: nat, target: nat, body: string)
    requires !OrderedMap.Has(chats, op)
    requires body != [] && !IsSpace(body[0])
    ensures Route(chats, Some(op), op, Some(DecimalString(target) + " " + body))
            == if OrderedMap.Has(chats, target) then ToUser(target, Some(body), true) else NotInChat(target)
  {
    ParseAddressed(target, body);
    PrefixedReply(chats, op, DecimalString(target) + " " + body);
  }

  /** An operator text without a prefix goes to the one open session, is answered
      with the session list when there are several, and does nothing when none. */
  lemma UnaddressedReply(chats: seq<(nat, nat)>, op: nat, text: string)
    requires !OrderedMap.Has(chats, op)
    requires ParsePrefix(text).None? && !IsCommand(Some(text))
    ensures |chats| == 0 ==> Route(chats, Some(op), op, Some(text)) == NoOp
    ensures |chats| == 1 ==> Route(chats, Some(op), op, Some(text)) == ToUser(chats[0].0, Some(text), false)
    ensures |chats| > 1 ==> Route(chats, Some(op), op, Some(text)) == ListChats(OrderedMap.Keys(chats))
  {
  }

  /** With sessions for users a and b, "a hello" from the operator reaches a alone
      with "hello", and "hi" reaches nobody but brings the list [a, b]. */
  lemma TwoSessions(a: nat, b: nat, op: nat)
    requires a != b && op != a && op != b
    ensures Route([(a, op), (b, op)], Some(op), op, Some(DecimalString(a) + " hello")) == ToUser(a, Some("hello"), true)
    ensures Route([(a, op), (b, op)], Some(op), op, Some("hi")) == ListChats([a, b])
  {
    var chats := [(a, op), (b, op)];
    assert OrderedMap.Keys(chats) == [a, b];
    assert DecimalString(a) + " hello" == DecimalString(a) + " " + "hello";
    AddressedReply(chats, op, a, "hello");
    assert ParsePrefix("hi").None? by { LeadingRunOf("hi", IsDigit, 0); }
  }

  /** With one session for user a, "hi" from the operator reaches a verbatim. */
  lemma OneSession(a: nat, op: nat)
    requires op != a
    ensures Route([(a, op)], Some(op), op, Some("hi")) == ToUser(a, Some("hi"), false)
  {
    assert ParsePrefix("hi").None? by { LeadingRunOf("hi", IsDigit, 0); }
  }

  /** Once a session is opened for a user, that user's texts reach the manager it
      was opened with. */
  lemma OpenedSessionRelays(chats: seq<(nat, nat)>, admin: Option<nat>, user: nat, manager: nat, text: Option<string>)
    requires !IsCommand(text)
    ensures Route(OrderedMap.Put(chats, user, manager), admin, user, text) == ToManager(manager, user, text)
  {
  }

  /** Once a user's session is closed, that user's texts go nowhere (unless the
      user is the operator). */
  lemma ClosedSessionSilent(chats: seq<(nat, nat)>, admin: Option<nat>, user: nat, text: Option<string>)
    requires admin != Some(user)
    ensures Route(OrderedMap.Delete(chats, user), admin, user, text) == NoOp
  {
  }

  /** Opening or closing one user's session leaves every other user's relay as it was. */
  lemma OtherSessionsUnaffected(chats: seq<(nat, nat)>, admin: Option<nat>, user: nat, manager: nat, sender: nat, text: Option<string>)
    requires sender != user && OrderedMap.Has(chats, sender)
    ensures Route(OrderedMap.Put(chats, user, manager), admin, sender, text) == Route(chats, admin, sender, text)
    ensures Route(OrderedMap.Delete(chats, user), admin, sender, text) == Route(chats, admin, sender, text)
  {
  }
}
