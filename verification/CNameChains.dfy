/** CNAME chasing as a function of what the resolver below answers, and its laws: few
    calls, no name twice, and a linked chain in the final answer. */
module CNameChains {
  import opened Dns

  const MAX_REDIRECT_COUNT: nat := 16

  datatype Question = Question(name: Name, typ: RRType, class_: RRClass)

  datatype Answer = Alias(owner: Name, target: Name) | Data(owner: Name, typ: RRType, text: string)

  datatype Message = Message(question: Question, anCount: nat, answers: seq<Answer>, rcode: nat)

  /** The resolver below, call by call (None: no response), and the handler's mode. */
  datatype Env = Env(oracle: (nat, Question) -> Option<Message>, base: nat, indirect: bool)

  function Ask(env: Env, asked: seq<Question>, q: Question): Option<Message> {
    env.oracle(env.base + |asked|, q)
  }

  /** A header that counts answers comes with answers. */
  ghost predicate Counted(oracle: (nat, Question) -> Option<Message>) {
    forall i, q :: oracle(i, q).Some? && oracle(i, q).value.anCount != 0 ==> oracle(i, q).value.answers != []
  }

  /** `needRedirect`: the alias target in the first answer (indirect) or the last. */
  function Redirect(indirect: bool, m: Option<Message>): Option<Name>
    requires m.Some? && m.value.anCount != 0 ==> m.value.answers != []
  {
    if m.None? || m.value.anCount == 0 then None
    else
      var answer := m.value.answers[if indirect then 0 else |m.value.answers| - 1];
      if answer.Alias? then Some(answer.target) else None
  }

  /** The answers a response contributes: in indirect mode a redirect keeps its first only. */
  function Contribution(indirect: bool, m: Option<Message>): seq<Answer>
    requires m.Some? && m.value.anCount != 0 ==> m.value.answers != []
  {
    if m.None? then []
    else if indirect && Redirect(indirect, m).Some? then m.value.answers[..1]
    else m.value.answers
  }

  /** A resolution under way: names chased, questions asked, answers and rcode so far. */
  datatype Trail = Trail(chain: seq<Name>, asked: seq<Question>, answers: seq<Answer>, rcode: nat)

  function Merge(indirect: bool, t: Trail, m: Option<Message>): Trail
    requires m.Some? && m.value.anCount != 0 ==> m.value.answers != []
  {
    if m.None? then t else t.(answers := t.answers + Contribution(indirect, m), rcode := m.value.rcode)
  }

  /** One redirect query: the trail with its reply merged, and where it redirects to. */
  ghost function Query(env: Env, q: Question, t: Trail): (Trail, Option<Name>)
    requires Counted(env.oracle) && t.chain != []
  {
    var ask := q.(name := t.chain[|t.chain| - 1]);
    var reply := Ask(env, t.asked, ask);
    (Merge(env.indirect, t.(asked := t.asked + [ask]), reply), Redirect(env.indirect, reply))
  }

  /** `followCNameChain`. */
  ghost function Follow(env: Env, q: Question, count: nat, t: Trail): Trail
    requires Counted(env.oracle) && t.chain != []
    decreases MAX_REDIRECT_COUNT - count
  {
    if count >= MAX_REDIRECT_COUNT then t
    else
      var (t', redirect) := Query(env, q, t);
      match redirect
      case None => t'
      case Some(next) => if next in t.chain then t' else Follow(env, q, count + 1, t'.(chain := t.chain + [next]))
  }

  /** The trail after the first reply, when it is a redirect; a redirect back to the
      question's own name is not added to the chain, and the chase goes on regardless. */
  function Opening(env: Env, q: Question): Option<Trail>
    requires var m := Ask(env, [], q); m.Some? && m.value.anCount != 0 ==> m.value.answers != []
  {
    var reply := Ask(env, [], q);
    match Redirect(env.indirect, reply)
    case None => None
    case Some(next) =>
      Some(Trail(if next == q.name then [q.name] else [q.name, next], [q],
                 Contribution(env.indirect, reply), reply.value.rcode))
  }

  /** `Resolve`: None when the first reply needs no redirect. */
  ghost function Chase(env: Env, q: Question): Option<Trail>
    requires Counted(env.oracle)
  {
    match Opening(env, q)
    case None => None
    case Some(t) => Some(Follow(env, q, 0, t))
  }

  // ----- calls and names

  ghost predicate Distinct(names: seq<Name>) {
    forall i, j | 0 <= i < j < |names| :: names[i] != names[j]
  }

  lemma {:induction false} FollowBounds(env: Env, q: Question, count: nat, t: Trail)
    requires Counted(env.oracle) && t.chain != [] && Distinct(t.chain) && count <= MAX_REDIRECT_COUNT
    ensures var t' := Follow(env, q, count, t);
            && |t'.asked| <= |t.asked| + MAX_REDIRECT_COUNT - count
            && Distinct(t'.chain) && t.chain <= t'.chain && t.asked <= t'.asked
            && (forall i | |t.asked| <= i < |t'.asked| :: t'.asked[i] == q.(name := t'.asked[i].name) && t'.asked[i].name in t'.chain)
    decreases MAX_REDIRECT_COUNT - count
  {
    if count < MAX_REDIRECT_COUNT {
      var (t', next) := Query(env, q, t);
      if next.Some? && next.value !in t.chain {
        FollowBounds(env, q, count + 1, t'.(chain := t.chain + [next.value]));
      }
    }
  }

  /** Main result: every resolution asks at most 17 questions, the first the original and
      the others its type and class for a name of the chain, which never repeats a name. */
  lemma ChaseBounds(env: Env, q: Question)
    requires Counted(env.oracle) && Chase(env, q).Some?
    ensures var t := Chase(env, q).value;
            && 1 <= |t.asked| <= MAX_REDIRECT_COUNT + 1
            && t.asked[0] == q && t.chain != [] && t.chain[0] == q.name
            && Distinct(t.chain)
            && (forall asked | asked in t.asked :: asked == q.(name := asked.name) && asked.name in t.chain)
  {
    FollowBounds(env, q, 0, Opening(env, q).value);
  }

  // ----- what the client gets

  /** The reply to question i of those asked. */
  function ReplyTo(env: Env, asked: seq<Question>, i: nat): Option<Message>
    requires i < |asked|
  {
    env.oracle(env.base + i, asked[i])
  }

  /** What a reply shows of itself in the final answer: in indirect mode a CNAME in front
      alone, otherwise everything. */
  function Shown(indirect: bool, m: Option<Message>): seq<Answer> {
    match m
    case None => []
    case Some(msg) =>
      if indirect && msg.anCount != 0 && |msg.answers| > 0 && msg.answers[0].Alias? then [msg.answers[0]] else msg.answers
  }

  function Gathered(env: Env, asked: seq<Question>, k: nat): seq<Answer>
    requires k <= |asked|
  {
    if k == 0 then [] else Gathered(env, asked, k - 1) + Shown(env.indirect, ReplyTo(env, asked, k - 1))
  }

  /** The rcode of the last reply that came. */
  function LastRcode(env: Env, asked: seq<Question>, k: nat): Option<nat>
    requires k <= |asked|
  {
    if k == 0 then None
    else if ReplyTo(env, asked, k - 1).Some? then Some(ReplyTo(env, asked, k - 1).value.rcode)
    else LastRcode(env, asked, k - 1)
  }

  /** Where a reply sends the chase: the target of its first answer in indirect mode, of
      its last one otherwise. */
  ghost predicate SendsTo(indirect: bool, m: Option<Message>, target: Name) {
    && m.Some? && m.value.anCount != 0 && |m.value.answers| > 0
    && var answer := m.value.answers[if indirect then 0 else |m.value.answers| - 1];
       answer.Alias? && answer.target == target
  }

  lemma RedirectExactly(env: Env, asked: seq<Question>, i: nat)
    requires Counted(env.oracle) && i < |asked|
    ensures match Redirect(env.indirect, ReplyTo(env, asked, i))
            case Some(target) => SendsTo(env.indirect, ReplyTo(env, asked, i), target)
            case None => forall target :: !SendsTo(env.indirect, ReplyTo(env, asked, i), target)
    ensures Contribution(env.indirect, ReplyTo(env, asked, i)) == Shown(env.indirect, ReplyTo(env, asked, i))
  {
    var m := ReplyTo(env, asked, i);
    if m.Some? && m.value.anCount != 0 {
      assert m.value.answers != [];
      assert m.value.answers[..1] == [m.value.answers[0]];
    }
  }

  lemma {:induction false} GatheredPrefix(env: Env, asked: seq<Question>, more: seq<Question>, k: nat)
    requires k <= |asked|
    ensures Gathered(env, asked + more, k) == Gathered(env, asked, k)
    ensures LastRcode(env, asked + more, k) == LastRcode(env, asked, k)
  {
    if k > 0 {
      GatheredPrefix(env, asked, more, k - 1);
    }
  }

  /** The trail shows exactly what was asked and answered so far. */
  ghost predicate Shows(env: Env, t: Trail) {
    && t.answers == Gathered(env, t.asked, |t.asked|)
    && Some(t.rcode) == LastRcode(env, t.asked, |t.asked|)
  }

  /** Every reply but the last sent the chase to the next question's name. */
  ghost predicate Led(env: Env, t: Trail) {
    forall i | 0 <= i < |t.asked| - 1 :: SendsTo(env.indirect, ReplyTo(env, t.asked, i), t.asked[i + 1].name)
  }

  lemma QueryShows(env: Env, q: Question, t: Trail)
    requires Counted(env.oracle) && t.chain != [] && Shows(env, t)
    ensures Shows(env, Query(env, q, t).0)
  {
    var ask := q.(name := t.chain[|t.chain| - 1]);
    var asked := t.asked + [ask];
    GatheredPrefix(env, t.asked, [ask], |t.asked|);
    RedirectExactly(env, asked, |t.asked|);
    assert t.answers + [] == t.answers;
  }

  /** The chase ended where it had to: at a reply that sends it nowhere, at a name it has
      already chased, or after 16 redirects. */
  ghost predicate Ended(env: Env, t: Trail) {
    && t.asked != []
    && var last := ReplyTo(env, t.asked, |t.asked| - 1);
       || (forall target :: !SendsTo(env.indirect, last, target))
       || (exists target :: SendsTo(env.indirect, last, target) && target in t.chain)
       || |t.asked| == 17
  }

  /** The last reply sends the chase to the name at the end of the chain. */
  ghost predicate AboutTo(env: Env, t: Trail) {
    t.asked != [] && t.chain != [] &&
    SendsTo(env.indirect, ReplyTo(env, t.asked, |t.asked| - 1), t.chain[|t.chain| - 1])
  }

  lemma {:induction false} FollowShows(env: Env, q: Question, count: nat, t: Trail)
    requires Counted(env.oracle) && Shows(env, t) && Led(env, t) && AboutTo(env, t)
    requires |t.asked| == count + 1 && count <= 16
    ensures var t' := Follow(env, q, count, t); Shows(env, t') && Led(env, t') && Ended(env, t')
    decreases MAX_REDIRECT_COUNT - count
  {
    if count < MAX_REDIRECT_COUNT {
      var ask := q.(name := t.chain[|t.chain| - 1]);
      var (t', next) := Query(env, q, t);
      QueryShows(env, q, t);
      QueryLeads(env, q, t);
      RedirectExactly(env, t'.asked, |t.asked|);
      if next.Some? && next.value !in t.chain {
        FollowShows(env, q, count + 1, t'.(chain := t.chain + [next.value]));
      }
    }
  }

  lemma QueryLeads(env: Env, q: Question, t: Trail)
    requires Counted(env.oracle) && Led(env, t) && AboutTo(env, t)
    ensures var t' := Query(env, q, t).0;
            && Led(env, t') && t'.asked == t.asked + [q.(name := t.chain[|t.chain| - 1])] && t'.chain == t.chain
  {
    var asked := t.asked + [q.(name := t.chain[|t.chain| - 1])];
    forall i | 0 <= i < |asked| - 1 ensures SendsTo(env.indirect, ReplyTo(env, asked, i), asked[i + 1].name) {
      if i < |t.asked| - 1 {
        assert SendsTo(env.indirect, ReplyTo(env, t.asked, i), t.asked[i + 1].name);
      }
    }
  }

  /** Main result: the client gets, in the order of the questions, what every reply shows,
      with the rcode of the last reply that came; each question is where the reply before
      it sent the chase; and it ended only where it had to. */
  lemma ChaseShows(env: Env, q: Question)
    requires Counted(env.oracle)
    ensures Chase(env, q).None? <==> forall target :: !SendsTo(env.indirect, env.oracle(env.base, q), target)
    ensures Chase(env, q).Some? ==>
              var t := Chase(env, q).value; Shows(env, t) && Led(env, t) && Ended(env, t)
  {
    RedirectExactly(env, [q], 0);
    if Opening(env, q).Some? {
      var t := Opening(env, q).value;
      assert Gathered(env, [q], 1) == Gathered(env, [q], 0) + Shown(env.indirect, ReplyTo(env, [q], 0));
      FollowShows(env, q, 0, t);
    }
  }

  // ----- the linked chain

  /** Each alias is owned by the target of the one before it, the first by the name; the
      first record that is no alias is owned by the last target. */
  predicate Linked(name: Name, answers: seq<Answer>)
    decreases |answers|
  {
    answers == [] || (answers[0].owner == name && (answers[0].Alias? ==> Linked(answers[0].target, answers[1..])))
  }

  /** Aliases only, from one name to another. */
  predicate Path(name: Name, answers: seq<Answer>, end: Name)
    decreases |answers|
  {
    if answers == [] then name == end
    else answers[0].Alias? && answers[0].owner == name && Path(answers[0].target, answers[1..], end)
  }

  lemma {:induction false} PathThen(name: Name, a: seq<Answer>, end: Name, b: seq<Answer>)
    requires Path(name, a, end) && Linked(end, b)
    ensures Linked(name, a + b)
    decreases |a|
  {
    if a == [] {
      assert a + b == b;
    } else {
      PathThen(a[0].target, a[1..], end, b);
      assert (a + b)[1..] == a[1..] + b;
    }
  }

  lemma {:induction false} PathMore(name: Name, a: seq<Answer>, end: Name, x: Answer)
    requires Path(name, a, end) && x.Alias? && x.owner == end
    ensures Path(name, a + [x], x.target)
    decreases |a|
  {
    if a == [] {
      assert a + [x] == [x] && [x][1..] == [];
    } else {
      PathMore(a[0].target, a[1..], end, x);
      assert (a + [x])[1..] == a[1..] + [x];
    }
  }

  lemma {:induction false} PathIsLinked(name: Name, a: seq<Answer>, end: Name)
    requires Path(name, a, end)
    ensures Linked(name, a)
    decreases |a|
  {
    if a != [] {
      PathIsLinked(a[0].target, a[1..], end);
    }
  }

  /** What the resolver below promises: counts match, and the first answer is owned by
      the name asked for. */
  ghost predicate Owned(oracle: (nat, Question) -> Option<Message>) {
    forall i, q :: oracle(i, q).Some? ==>
      var m := oracle(i, q).value;
      (m.anCount == 0 <==> m.answers == []) && (m.answers != [] ==> m.answers[0].owner == q.name)
  }

  lemma {:induction false} FollowLinked(env: Env, q: Question, count: nat, t: Trail)
    requires Owned(env.oracle) && env.indirect && t.chain != []
    requires Path(q.name, t.answers, t.chain[|t.chain| - 1])
    ensures Linked(q.name, Follow(env, q, count, t).answers)
    decreases MAX_REDIRECT_COUNT - count
  {
    var end := t.chain[|t.chain| - 1];
    PathIsLinked(q.name, t.answers, end);
    if count < MAX_REDIRECT_COUNT {
      var ask := q.(name := end);
      var reply := Ask(env, t.asked, ask);
      var t' := Merge(env.indirect, t.(asked := t.asked + [ask]), reply);
      match Redirect(env.indirect, reply)
      case None =>
        if reply.Some? {
          PathThen(q.name, t.answers, end, reply.value.answers);
        }
      case Some(next) =>
        assert reply.value.answers[..1] == [reply.value.answers[0]];
        PathMore(q.name, t.answers, end, reply.value.answers[0]);
        PathIsLinked(q.name, t'.answers, next);
        if next !in t.chain {
          FollowLinked(env, q, count + 1, t'.(chain := t.chain + [next]));
        }
    }
  }

  /** Main result: in indirect mode, over a resolver whose first answers are owned by the
      asked name, the aliases at the head of the final answer form one linked chain from
      the question's name, also when a loop or the length limit cut the chase off. */
  lemma ChaseIsLinked(env: Env, q: Question)
    requires Owned(env.oracle) && env.indirect && Chase(env, q).Some?
    ensures Linked(q.name, Chase(env, q).value.answers)
  {
    var reply := Ask(env, [], q);
    var first := reply.value.answers[0];
    assert reply.value.answers[..1] == [first] && [first][1..] == [];
    FollowLinked(env, q, 0, Opening(env, q).value);
  }
}
