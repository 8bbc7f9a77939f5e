/** HW3: chat members, messages, and how a message is routed. */
module Chat {
  /** A client's record. `fd` is its socket; `id` tells records apart, as their addresses do. */
  datatype Member = Member(id: nat, fd: nat, name: string, group: string)

  /** `serial` tells apart messages with the same text, as their addresses do. */
  datatype Message = Message(serial: nat, from: string, group: string, text: string)

  datatype Sent = Sent(fd: nat, text: string)

  /** `NoTarget`: `/W` followed by spaces only, where `strtok` returns NULL. */
  datatype Route = Local(body: string) | Whisper(target: string, body: string) | NoTarget

  function SkipSpaces(s: string): (r: string)
    ensures |r| <= |s| && (r == [] || r[0] != ' ')
  {
    if s != [] && s[0] == ' ' then SkipSpaces(s[1..]) else s
  }

  /** The token `strtok` finds at the start of `s`. */
  function Token(s: string): (r: string)
    ensures r <= s && ' ' !in r && (|r| < |s| ==> s[|r|] == ' ')
  {
    if s == [] || s[0] == ' ' then [] else [s[0]] + Token(s[1..])
  }

  function Parse(text: string): Route {
    if !("/W " <= text) then Local(text)
    else
      var rest := SkipSpaces(text[2..]);
      var target := Token(rest);
      if target == [] then NoTarget
      else Whisper(target, if |target| < |rest| then rest[|target| + 1..] else [])
  }

  function Spaces(n: nat): (s: string)
    ensures |s| == n
  {
    seq(n, _ => ' ')
  }

  /** A private message as typed; the body keeps every space after the first. */
  function Whispered(gap: nat, target: string, body: string): string {
    "/W" + Spaces(gap) + target + (if body == [] then [] else " " + body)
  }

  lemma {:induction false} SkipGap(gap: nat, s: string)
    requires s == [] || s[0] != ' '
    ensures SkipSpaces(Spaces(gap) + s) == s
  {
    if gap > 0 {
      assert (Spaces(gap) + s)[1..] == Spaces(gap - 1) + s;
      SkipGap(gap - 1, s);
    } else {
      assert Spaces(gap) + s == s;
    }
  }

  lemma {:induction false} TokenBeforeSpace(target: string, rest: string)
    requires ' ' !in target && (rest == [] || rest[0] == ' ')
    ensures Token(target + rest) == target
  {
    if target == [] {
      assert target + rest == rest;
    } else {
      assert (target + rest)[1..] == target[1..] + rest;
      TokenBeforeSpace(target[1..], rest);
    }
  }

  lemma {:induction false} GapSkipped(s: string) returns (gap: nat)
    ensures s == Spaces(gap) + SkipSpaces(s) && (s != [] && s[0] == ' ' ==> gap >= 1)
  {
    if s != [] && s[0] == ' ' {
      var rest := s[1..];
      var shorter := GapSkipped(rest);
      gap := shorter + 1;
      assert Spaces(gap) == [' '] + Spaces(shorter);
      assert s == [' '] + rest;
      assert s == [' '] + (Spaces(shorter) + SkipSpaces(rest));
    } else {
      gap := 0;
    }
  }

  lemma Opening(gap: nat, s: string)
    requires gap >= 1 && (s == [] || s[0] != ' ')
    ensures var text := "/W" + Spaces(gap) + s; "/W " <= text && SkipSpaces(text[2..]) == s
  {
    var text := "/W" + Spaces(gap) + s;
    assert text[2..] == Spaces(gap) + s;
    assert text[..3] == "/W ";
    SkipGap(gap, s);
  }

  /** Typing a private message and routing it gives back its target and its body. */
  lemma WhisperRoundTrip(gap: nat, target: string, body: string)
    requires gap >= 1 && target != [] && ' ' !in target
    ensures Parse(Whispered(gap, target, body)) == Whisper(target, body)
  {
    var tail := if body == [] then [] else " " + body;
    Opening(gap, target + tail);
    assert Whispered(gap, target, body) == "/W" + Spaces(gap) + (target + tail);
    TokenBeforeSpace(target, tail);
    var rest := target + tail;
    assert Token(rest) == target && rest[|target|..] == tail;
    assert |target| < |rest| ==> rest[|target| + 1..] == tail[1..] == body;
  }

  /** A target and a body as typed, with or without a space after a target that ends the text. */
  lemma Retyped(rest: string, target: string, body: string)
    requires target <= rest && (|target| < |rest| ==> rest[|target|] == ' ')
    requires body == if |target| < |rest| then rest[|target| + 1..] else []
    ensures var tail := if body == [] then [] else " " + body;
            rest == target + tail || (body == [] && rest == target + tail + " ")
  {
    if |target| < |rest| {
      assert rest == target + " " + body;
      assert body == [] ==> rest == target + [] + " ";
      assert body != [] ==> rest == target + (" " + body);
    } else {
      assert rest == target + [];
    }
  }

  /** Only such messages are routed as private. */
  lemma WhisperGap(text: string) returns (gap: nat)
    requires Parse(text).Whisper?
    ensures Private(text, gap, Parse(text).target, Parse(text).body)
  {
    var r := Parse(text);
    var rest := SkipSpaces(text[2..]);
    var tail := if r.body == [] then [] else " " + r.body;
    gap := GapSkipped(text[2..]);
    Retyped(rest, r.target, r.body);
    assert text == "/W" + text[2..];
    Regroup(gap, r.target + tail, " ");
    Regroup(gap, r.target, tail);
  }

  /** A text as typed: private, with the space after a target that ends it kept or not. */
  ghost predicate Private(text: string, gap: nat, target: string, body: string) {
    gap >= 1 && target != [] && ' ' !in target &&
    (text == Whispered(gap, target, body) || (body == [] && text == Whispered(gap, target, []) + " "))
  }

  lemma TrailingSpace(gap: nat, target: string)
    requires gap >= 1 && target != [] && ' ' !in target
    ensures Parse(Whispered(gap, target, []) + " ") == Whisper(target, [])
  {
    Opening(gap, target + " ");
    assert Whispered(gap, target, []) + " " == "/W" + Spaces(gap) + (target + " ");
    TokenBeforeSpace(target, " ");
    assert (target + " ")[|target| + 1..] == [];
  }

  lemma PrivateParse(text: string, gap: nat, target: string, body: string)
    requires Private(text, gap, target, body)
    ensures Parse(text) == Whisper(target, body)
  {
    WhisperRoundTrip(gap, target, body);
    TrailingSpace(gap, target);
  }

  lemma PrivateForm(text: string)
    ensures Parse(text).Whisper? ==>
              exists gap: nat :: Private(text, gap, Parse(text).target, Parse(text).body)
  {
    if Parse(text).Whisper? {
      var gap := WhisperGap(text);
    }
  }

  lemma NoTargetForm(text: string)
    ensures Parse(text) == NoTarget <==> exists gap: nat :: gap >= 1 && text == "/W" + Spaces(gap)
  {
    if "/W " <= text {
      var gap := GapSkipped(text[2..]);
      assert text == "/W" + text[2..];
      assert Parse(text) == NoTarget ==> text == "/W" + Spaces(gap);
    }
    if gap: nat :| gap >= 1 && text == "/W" + Spaces(gap) {
      Opening(gap, []);
      assert text == "/W" + Spaces(gap) + [];
    }
  }

  /** Every text is of one of three kinds: for the group, private, or without a target. */
  lemma RouteExactly(text: string)
    ensures if "/W " <= text then !Parse(text).Local? else Parse(text) == Local(text)
    ensures forall target, body :: Parse(text) == Whisper(target, body) <==>
              exists gap: nat :: Private(text, gap, target, body)
    ensures Parse(text) == NoTarget <==> exists gap: nat :: gap >= 1 && text == "/W" + Spaces(gap)
  {
    PrivateForm(text);
    NoTargetForm(text);
    forall gap: nat, target, body | Private(text, gap, target, body) ensures Parse(text) == Whisper(target, body) {
      PrivateParse(text, gap, target, body);
    }
  }

  lemma Regroup(gap: nat, a: string, b: string)
    ensures "/W" + (Spaces(gap) + (a + b)) == "/W" + Spaces(gap) + a + b
  {
  }

  // ---------- delivery ----------

  /** A group message goes to the sender's group; a private one to a group or a name. */
  predicate Addressed(m: Message, member: Member) {
    match Parse(m.text)
    case Local(_) => m.group == member.group
    case Whisper(target, _) => member.group == target || member.name == target
    case NoTarget => false
  }

  predicate Routable(m: Message) {
    !Parse(m.text).NoTarget?
  }

  function Line(m: Message): string
    requires Routable(m)
  {
    m.from + " : " + Parse(m.text).body + "\n"
  }

  function SendTo(m: Message, member: Member): seq<Sent>
    requires Routable(m)
  {
    if Addressed(m, member) then [Sent(member.fd, Line(m))] else []
  }

  /** The sends that dispatching `m` causes, in list order. */
  function Deliver(members: seq<Member>, m: Message): seq<Sent>
    requires Routable(m)
  {
    if members == [] then []
    else
      Deliver(members[..|members| - 1], m) + SendTo(m, members[|members| - 1])
  }

  lemma DeliverNext(members: seq<Member>, j: nat, m: Message)
    requires Routable(m) && j < |members|
    ensures Deliver(members[..j + 1], m) == Deliver(members[..j], m) + SendTo(m, members[j])
  {
    assert members[..j + 1][..j] == members[..j];
  }

  predicate OnSocket(m: Message, fd: nat, member: Member) {
    member.fd == fd && Addressed(m, member)
  }

  /** Places of the addressed members on socket `fd`. */
  function Targets(members: seq<Member>, m: Message, fd: nat): set<nat> {
    set k: nat | k < |members| && OnSocket(m, fd, members[k])
  }

  lemma TargetsLast(members: seq<Member>, m: Message, fd: nat)
    requires members != []
    ensures var last := |members| - 1;
            |Targets(members, m, fd)| ==
            |Targets(members[..last], m, fd)| + if OnSocket(m, fd, members[last]) then 1 else 0
  {
    var last := |members| - 1;
    var all, fewer := Targets(members, m, fd), Targets(members[..last], m, fd);
    if OnSocket(m, fd, members[last]) {
      assert all == fewer + {last};
    } else {
      assert all == fewer;
    }
  }

  lemma SendCount(m: Message, fd: nat, member: Member)
    requires Routable(m)
    ensures multiset(SendTo(m, member))[Sent(fd, Line(m))] == if OnSocket(m, fd, member) then 1 else 0
    ensures forall s <- SendTo(m, member) :: s.text == Line(m)
  {
  }

  /** Each socket gets the line once for every addressed member on it, and nothing else is sent. */
  lemma {:induction false} DeliverCount(members: seq<Member>, m: Message, fd: nat)
    requires Routable(m)
    ensures multiset(Deliver(members, m))[Sent(fd, Line(m))] == |Targets(members, m, fd)|
    ensures forall s <- Deliver(members, m) :: s.text == Line(m)
  {
    if members != [] {
      var last := |members| - 1;
      DeliverCount(members[..last], m, fd);
      TargetsLast(members, m, fd);
      SendCount(m, fd, members[last]);
      CountConcat(Deliver(members[..last], m), SendTo(m, members[last]), Sent(fd, Line(m)));
    } else {
      assert Targets(members, m, fd) == {};
    }
  }

  lemma CountConcat<T>(a: seq<T>, b: seq<T>, x: T)
    ensures multiset(a + b)[x] == multiset(a)[x] + multiset(b)[x]
  {
  }

  /** A message that is not private: one line, with sender and text, for each member of the
      sender's group on a socket, and nothing else. */
  lemma GroupReaches(members: seq<Member>, m: Message, fd: nat)
    requires !("/W " <= m.text)
    ensures Routable(m)
    ensures var line := m.from + " : " + m.text + "\n";
            (forall s <- Deliver(members, m) :: s.text == line) &&
            multiset(Deliver(members, m))[Sent(fd, line)] ==
            |set k: nat | k < |members| && members[k].fd == fd && members[k].group == m.group|
  {
    DeliverCount(members, m, fd);
    assert Targets(members, m, fd) ==
           set k: nat | k < |members| && members[k].fd == fd && members[k].group == m.group;
  }

  /** A private one: one line, with sender and body, for each member whose group or whose name is
      the target, and nothing else. */
  lemma WhisperReaches(members: seq<Member>, m: Message, gap: nat, target: string, body: string, fd: nat)
    requires Private(m.text, gap, target, body)
    ensures Routable(m)
    ensures var line := m.from + " : " + body + "\n";
            (forall s <- Deliver(members, m) :: s.text == line) &&
            multiset(Deliver(members, m))[Sent(fd, line)] ==
            |set k: nat | k < |members| && members[k].fd == fd &&
                          (members[k].group == target || members[k].name == target)|
  {
    PrivateParse(m.text, gap, target, body);
    DeliverCount(members, m, fd);
    assert Targets(members, m, fd) ==
           set k: nat | k < |members| && members[k].fd == fd &&
                        (members[k].group == target || members[k].name == target);
  }

  /** The line sent: the sender, and the text or, of a private message, its body. */
  lemma DeliverTexts(members: seq<Member>, m: Message)
    requires Routable(m)
    ensures !("/W " <= m.text) ==> forall s <- Deliver(members, m) :: s.text == m.from + " : " + m.text + "\n"
    ensures forall gap: nat, target, body | Private(m.text, gap, target, body) ::
              forall s <- Deliver(members, m) :: s.text == m.from + " : " + body + "\n"
  {
    DeliverCount(members, m, 0);
    forall gap: nat, target, body | Private(m.text, gap, target, body) ensures Parse(m.text) == Whisper(target, body) {
      PrivateParse(m.text, gap, target, body);
    }
  }

  /** The sends are in list order. */
  lemma {:induction false} DeliverInOrder(a: seq<Member>, b: seq<Member>, m: Message)
    requires Routable(m)
    ensures Deliver(a + b, m) == Deliver(a, m) + Deliver(b, m)
  {
    if b == [] {
      assert a + b == a;
    } else {
      var last := |b| - 1;
      assert (a + b)[..|a + b| - 1] == a + b[..last];
      DeliverInOrder(a, b[..last], m);
    }
  }

  /** A member gets what it should, the line once or nothing, exactly when no other addressed
      member is on its socket. */
  lemma DeliverExactly(members: seq<Member>, m: Message, k: nat)
    requires Routable(m) && k < |members|
    ensures multiset(Deliver(members, m))[Sent(members[k].fd, Line(m))] ==
            (if Addressed(m, members[k]) then 1 else 0) <==>
            forall j :: 0 <= j < |members| && j != k && members[j].fd == members[k].fd ==> !Addressed(m, members[j])
  {
    var fd := members[k].fd;
    var targets := Targets(members, m, fd);
    DeliverCount(members, m, fd);
    if j :| 0 <= j < |members| && j != k && members[j].fd == fd && Addressed(m, members[j]) {
      var these: set<nat> := if Addressed(m, members[k]) then {j, k} else {j};
      assert these <= targets;
      SubsetSize(these, targets);
    } else {
      assert targets == if Addressed(m, members[k]) then {k} else {};
    }
  }

  lemma {:induction false} SubsetSize(a: set<nat>, b: set<nat>)
    requires a <= b
    ensures |a| <= |b|
  {
    assert b == a + (b - a);
  }

  // ---------- lists as sequences ----------

  /** `s` without the first occurrence of `x`. */
  function Without<T(==)>(s: seq<T>, x: T): (r: seq<T>)
    ensures |r| <= |s|
  {
    if s == [] then [] else if s[0] == x then s[1..] else [s[0]] + Without(s[1..], x)
  }

  lemma {:induction false} WithoutAt<T>(s: seq<T>, k: nat)
    requires k < |s| && forall i :: 0 <= i < k ==> s[i] != s[k]
    ensures Without(s, s[k]) == s[..k] + s[k + 1..]
  {
    if k > 0 {
      WithoutAt(s[1..], k - 1);
    }
  }

  function Repeat<T>(n: nat, x: seq<T>): seq<T> {
    if n == 0 then [] else Repeat(n - 1, x) + x
  }
}
