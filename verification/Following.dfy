/** Following links: which objects are listed, within which budget, along which paths. */
module Following {
  import opened Wrappers
  import opened MapOrder
  import opened Links
  import opened Selectors

  datatype Object = Object(key: Key, links: seq<TargetLink>)

  /** A scheduled listing: the object to list, the selector for its links, and the budget they are charged to. */
  datatype Listing = Listing(key: Key, selector: Selector, budget: nat)

  /** The step that following a link from an object is. */
  function StepOf(from: Key, link: TargetLink): Step {
    if link.role == PARENT then Step(link.key, from, false, link.class_) else Step(from, link.key, true, link.class_)
  }

  /** The step goes from the object by the link: up to its parent for a parent link, otherwise down to its child, in the link's class. */
  predicate FollowsLink(s: Step, from: Key, link: TargetLink) {
    && s.class_ == link.class_
    && (link.role == "parent" ==> !s.fromParent && s.parent == link.key && s.child == from)
    && (link.role != "parent" ==> s.fromParent && s.parent == from && s.child == link.key)
  }

  lemma {:induction false} StepFollows(from: Key, link: TargetLink)
    ensures FollowsLink(StepOf(from, link), from, link) && Target(StepOf(from, link)) == link.key
    ensures forall s :: FollowsLink(s, from, link) ==> s == StepOf(from, link)
  {
  }

  function Target(s: Step): Key {
    if s.fromParent then s.child else s.parent
  }

  /** The selector left after a path, if the path is admitted. */
  function After(sel: Selector, path: seq<Step>): Option<Selector>
    decreases |path|
  {
    if path == [] then Some(sel)
    else if Next(sel, path[0]).None? then None
    else After(Next(sel, path[0]).value, path[1..])
  }

  lemma {:induction false} AfterIffAdmits(sel: Selector, path: seq<Step>)
    ensures After(sel, path).Some? <==> AdmitsPath(sel, path)
    decreases |path|
  {
    if path != [] && Next(sel, path[0]).Some? {
      AfterIffAdmits(Next(sel, path[0]).value, path[1..]);
    }
  }

  lemma {:induction false} AfterThen(sel: Selector, path: seq<Step>, s: Step)
    ensures After(sel, path + [s]) == if After(sel, path).None? then None else Next(After(sel, path).value, s)
    decreases |path|
  {
    if path == [] {
      assert path + [s] == [s];
    } else {
      assert (path + [s])[1..] == path[1..] + [s];
      if Next(sel, path[0]).Some? {
        AfterThen(Next(sel, path[0]).value, path[1..], s);
      }
    }
  }

  function AtLeastZero(x: int): nat {
    if x < 0 then 0 else x
  }

  /** How many listings have been charged to budget b. */
  function Charged(charges: seq<nat>, b: nat): nat {
    if charges == [] then 0 else Charged(charges[..|charges| - 1], b) + (if charges[|charges| - 1] == b then 1 else 0)
  }

  lemma {:induction false} ChargedMore(charges: seq<nat>, c: nat, b: nat)
    ensures Charged(charges + [c], b) == Charged(charges, b) + (if c == b then 1 else 0)
  {
    assert (charges + [c])[..|charges|] == charges;
  }

  /** With one budget every listing is charged to it. */
  lemma {:induction false} ChargedAll(charges: seq<nat>)
    requires forall i :: 0 <= i < |charges| ==> charges[i] == 0
    ensures Charged(charges, 0) == |charges|
  {
    if charges != [] {
      ChargedAll(charges[..|charges| - 1]);
    }
  }

  function Remaining(budgets: seq<int>): nat {
    if budgets == [] then 0 else Remaining(budgets[..|budgets| - 1]) + AtLeastZero(budgets[|budgets| - 1])
  }

  lemma {:induction false} RemainingUpdate(budgets: seq<int>, b: nat, x: int)
    requires b < |budgets|
    ensures Remaining(budgets[b := x]) == Remaining(budgets) - AtLeastZero(budgets[b]) + AtLeastZero(x)
  {
    var n := |budgets| - 1;
    if b == n {
      assert budgets[b := x][..n] == budgets[..n];
    } else {
      RemainingUpdate(budgets[..n], b, x);
      assert budgets[b := x][..n] == budgets[..n][b := x];
    }
  }

  /** Every key is listed once, and no initial key at all. */
  ghost predicate Held(known: set<Key>, listed: seq<Key>, initial: set<Key>) {
    known == initial + Elems(listed) && NoDup(listed) && Elems(listed) !! initial
  }

  /** What has been charged to a budget and what is left of it stay within the limit. */
  ghost predicate Funded(budgets: seq<int>, charges: seq<nat>, limit: int) {
    && (forall b :: 0 <= b < |budgets| ==> Charged(charges, b) + AtLeastZero(budgets[b]) <= AtLeastZero(limit))
    && (forall i :: 0 <= i < |charges| ==> charges[i] < |budgets|)
  }

  /** path is admitted by sel, ends at key, and leaves `left` for the links of the object. */
  ghost predicate Leads(sel: Selector, path: seq<Step>, key: Key, left: Selector) {
    path != [] && Target(path[|path| - 1]) == key && After(sel, path) == Some(left)
  }

  ghost predicate Led(sel: Selector, path: seq<Step>, key: Key) {
    exists left :: Leads(sel, path, key, left)
  }

  /** An object whose links have been looked at: the selector for them, the budget they were charged to, and the key whose listing returned it; none for an initial object. */
  datatype Met = Met(obj: Object, selector: Selector, budget: nat, via: Option<Key>)

  /** The links followed to a listed key, and the budget they were charged to. */
  datatype Trail = Trail(steps: seq<Step>, budget: nat)

  /** What the storage answered to a listing. */
  datatype Answer = Answer(listing: Listing, thumbnails: seq<Object>)

  /** The key whose listing returns the objects at the end of a path. */
  function Via(path: seq<Step>): Option<Key> {
    if path == [] then None else Some(Target(path[|path| - 1]))
  }

  /** The i-th step of a trail is a link of object x, which is an initial object or was returned by the listing that the steps before lead to. */
  ghost predicate IsStep(x: Met, link: TargetLink, sel: Selector, t: Trail, i: nat) {
    && i < |t.steps| && link in x.obj.links && FollowsLink(t.steps[i], x.obj.key, link)
    && After(sel, t.steps[..i]) == Some(x.selector) && x.budget == t.budget && x.via == Via(t.steps[..i])
  }

  ghost predicate StepTraced(met: seq<Met>, sel: Selector, t: Trail, i: nat) {
    exists x, link :: x in met && IsStep(x, link, sel, t, i)
  }

  /** Every step of a trail is a link of an object that was met there. */
  ghost predicate Traced(met: seq<Met>, sel: Selector, t: Trail) {
    forall i: nat :: i < |t.steps| ==> StepTraced(met, sel, t, i)
  }

  ghost predicate Arrived(k: Key, charge: nat, trails: map<Key, Trail>, met: seq<Met>, sel: Selector) {
    k in trails && trails[k].budget == charge && Led(sel, trails[k].steps, k) && Traced(met, sel, trails[k])
  }

  /** Every key was listed along an admitted path of links between objects. */
  ghost predicate Reached(listed: seq<Key>, charges: seq<nat>, trails: map<Key, Trail>, met: seq<Met>, sel: Selector) {
    |charges| == |listed| && forall j :: 0 <= j < |listed| ==> Arrived(listed[j], charges[j], trails, met, sel)
  }

  /** The listing has the selector and the budget of its trail. */
  ghost predicate Waits(l: Listing, listed: seq<Key>, trails: map<Key, Trail>, sel: Selector, n: nat) {
    l.key in listed && l.key in trails && l.budget == trails[l.key].budget < n && Leads(sel, trails[l.key].steps, l.key, l.selector)
  }

  ghost predicate Waiting(pending: seq<Listing>, listed: seq<Key>, trails: map<Key, Trail>, sel: Selector, n: nat) {
    forall i :: 0 <= i < |pending| ==> Waits(pending[i], listed, trails, sel, n)
  }

  ghost predicate Answered(answers: seq<Answer>, listed: seq<Key>, trails: map<Key, Trail>, sel: Selector, n: nat) {
    forall i :: 0 <= i < |answers| ==> Waits(answers[i].listing, listed, trails, sel, n)
  }

  ghost predicate InPending(k: Key, pending: seq<Listing>) {
    exists i :: 0 <= i < |pending| && pending[i].key == k
  }

  ghost predicate InAnswers(k: Key, answers: seq<Answer>) {
    exists i :: 0 <= i < |answers| && answers[i].listing.key == k
  }

  /** Every listed key is waiting or has been answered, once. */
  ghost predicate Accounted(listed: seq<Key>, pending: seq<Listing>, answers: seq<Answer>) {
    |pending| + |answers| == |listed| && forall k :: k in listed ==> InPending(k, pending) || InAnswers(k, answers)
  }

  lemma {:induction false} AccountedMore(listed: seq<Key>, pending: seq<Listing>, answers: seq<Answer>, l: Listing)
    requires Accounted(listed, pending, answers)
    ensures Accounted(listed + [l.key], pending + [l], answers)
  {
    var more := pending + [l];
    forall k | k in listed + [l.key] ensures InPending(k, more) || InAnswers(k, answers) {
      if k == l.key {
        assert more[|pending|].key == k;
      } else if InPending(k, pending) {
        var i :| 0 <= i < |pending| && pending[i].key == k;
        assert more[i].key == k;
      }
    }
  }

  lemma {:induction false} AccountedAnswer(listed: seq<Key>, pending: seq<Listing>, answers: seq<Answer>, i: nat, thumbnails: seq<Object>)
    requires Accounted(listed, pending, answers) && i < |pending|
    ensures Accounted(listed, pending[..i] + pending[i + 1..], answers + [Answer(pending[i], thumbnails)])
  {
    var rest, more := pending[..i] + pending[i + 1..], answers + [Answer(pending[i], thumbnails)];
    forall k | k in listed ensures InPending(k, rest) || InAnswers(k, more) {
      if InAnswers(k, answers) {
        var j :| 0 <= j < |answers| && answers[j].listing.key == k;
        assert more[j].listing.key == k;
      } else {
        var j :| 0 <= j < |pending| && pending[j].key == k;
        if j == i {
          assert more[|answers|].listing.key == k;
        } else {
          assert rest[if j < i then j else j - 1].key == k;
        }
      }
    }
  }

  /** One more step from an object that has been met. */
  lemma {:induction false} TracedNext(met: seq<Met>, sel: Selector, here: seq<Step>, x: Met, link: TargetLink)
    requires Traced(met, sel, Trail(here, x.budget)) && x in met && link in x.obj.links
    requires After(sel, here) == Some(x.selector) && x.via == Via(here)
    ensures Traced(met, sel, Trail(here + [StepOf(x.obj.key, link)], x.budget))
  {
    var t, t' := Trail(here, x.budget), Trail(here + [StepOf(x.obj.key, link)], x.budget);
    forall i: nat | i < |t'.steps| ensures StepTraced(met, sel, t', i) {
      assert t'.steps[..i] == here[..i];
      if i < |here| {
        assert StepTraced(met, sel, t, i);
        var y, l :| y in met && IsStep(y, l, sel, t, i);
        assert IsStep(y, l, sel, t', i);
      } else {
        assert here[..i] == here;
        StepFollows(x.obj.key, link);
        assert IsStep(x, link, sel, t', i);
      }
    }
  }

  lemma {:induction false} TracedMore(met: seq<Met>, x: Met, sel: Selector, t: Trail)
    requires Traced(met, sel, t)
    ensures Traced(met + [x], sel, t)
  {
    forall i: nat | i < |t.steps| ensures StepTraced(met + [x], sel, t, i) {
      assert StepTraced(met, sel, t, i);
      var y, l :| y in met && IsStep(y, l, sel, t, i);
      assert y in met + [x];
    }
  }

  lemma {:induction false} ReachedMet(listed: seq<Key>, charges: seq<nat>, trails: map<Key, Trail>, met: seq<Met>, sel: Selector, x: Met)
    requires Reached(listed, charges, trails, met, sel)
    ensures Reached(listed, charges, trails, met + [x], sel)
  {
    hide Traced, Led;
    forall j | 0 <= j < |listed| ensures Arrived(listed[j], charges[j], trails, met + [x], sel) {
      assert Arrived(listed[j], charges[j], trails, met, sel);
      TracedMore(met, x, sel, trails[listed[j]]);
    }
  }

  lemma {:induction false} ReachedMore(listed: seq<Key>, charges: seq<nat>, trails: map<Key, Trail>, met: seq<Met>, sel: Selector, key: Key, t: Trail, left: Selector)
    requires Reached(listed, charges, trails, met, sel) && key !in listed && Leads(sel, t.steps, key, left) && Traced(met, sel, t)
    ensures Reached(listed + [key], charges + [t.budget], trails[key := t], met, sel)
  {
    hide Traced, Leads;
    var trails' := trails[key := t];
    forall j | 0 <= j < |listed| + 1 ensures Arrived((listed + [key])[j], (charges + [t.budget])[j], trails', met, sel) {
      if j < |listed| {
        assert Arrived(listed[j], charges[j], trails, met, sel);
        assert listed[j] != key;
      } else {
        assert Led(sel, t.steps, key);
      }
    }
  }

  lemma {:induction false} WaitsMore(l: Listing, listed: seq<Key>, trails: map<Key, Trail>, sel: Selector, n: nat, key: Key, t: Trail)
    requires Waits(l, listed, trails, sel, n) && key !in listed
    ensures Waits(l, listed + [key], trails[key := t], sel, n)
  {
    assert l.key != key;
  }

  lemma {:induction false} WaitingMore(pending: seq<Listing>, answers: seq<Answer>, listed: seq<Key>, trails: map<Key, Trail>, sel: Selector, n: nat, key: Key, t: Trail, left: Selector)
    requires Waiting(pending, listed, trails, sel, n) && Answered(answers, listed, trails, sel, n) && key !in listed
    requires Leads(sel, t.steps, key, left) && t.budget < n
    ensures Waiting(pending + [Listing(key, left, t.budget)], listed + [key], trails[key := t], sel, n)
    ensures Answered(answers, listed + [key], trails[key := t], sel, n)
  {
    hide Leads;
    forall i | 0 <= i < |pending| ensures Waits(pending[i], listed + [key], trails[key := t], sel, n) {
      WaitsMore(pending[i], listed, trails, sel, n, key, t);
    }
    forall i | 0 <= i < |answers| ensures Waits(answers[i].listing, listed + [key], trails[key := t], sel, n) {
      WaitsMore(answers[i].listing, listed, trails, sel, n, key, t);
    }
    var l := Listing(key, left, t.budget);
    assert (listed + [key])[|listed|] == key;
    assert Waits(l, listed + [key], trails[key := t], sel, n);
  }

  lemma {:induction false} Spent(budgets: seq<int>, charges: seq<nat>, limit: int, b: nat)
    requires Funded(budgets, charges, limit) && b < |budgets|
    ensures Funded(budgets[b := budgets[b] - 1], charges, limit)
    ensures budgets[b] > 0 ==> Funded(budgets[b := budgets[b] - 1], charges + [b], limit)
    ensures Remaining(budgets[b := budgets[b] - 1]) == Remaining(budgets) - (if budgets[b] > 0 then 1 else 0)
  {
    RemainingUpdate(budgets, b, budgets[b] - 1);
    forall c ensures Charged(charges + [b], c) == Charged(charges, c) + (if b == c then 1 else 0) {
      ChargedMore(charges, b, c);
    }
  }

  lemma {:induction false} HeldMore(known: set<Key>, listed: seq<Key>, initial: set<Key>, key: Key)
    requires Held(known, listed, initial) && key !in known
    ensures Held(known + {key}, listed + [key], initial) && key !in listed
  {
    ElemsAppend(listed, key);
    assert key in listed ==> key in Elems(listed);
  }

  /** A link that has been looked at leads to a known object, or was denied, or came when the budget was used up. */
  ghost predicate Settled(x: Met, link: TargetLink, known: set<Key>, budgets: seq<int>) {
    x.budget < |budgets| && (link.key in known || Next(x.selector, StepOf(x.obj.key, link)).None? || budgets[x.budget] < 0)
  }

  ghost predicate AllSettled(met: seq<Met>, known: set<Key>, budgets: seq<int>) {
    forall i, link :: 0 <= i < |met| && link in met[i].obj.links ==> Settled(met[i], link, known, budgets)
  }

  /** More is known and less is left. */
  predicate Onward(known: set<Key>, budgets: seq<int>, known': set<Key>, budgets': seq<int>) {
    known <= known' && |budgets'| == |budgets| && forall b :: 0 <= b < |budgets| ==> budgets'[b] <= budgets[b]
  }

  lemma {:induction false} SettledOnward(met: seq<Met>, known: set<Key>, budgets: seq<int>, known': set<Key>, budgets': seq<int>)
    requires AllSettled(met, known, budgets) && Onward(known, budgets, known', budgets')
    ensures AllSettled(met, known', budgets')
  {
    forall i, link | 0 <= i < |met| && link in met[i].obj.links ensures Settled(met[i], link, known', budgets') {
      assert Settled(met[i], link, known, budgets);
    }
  }

  /** The links of one more object have all been looked at. */
  lemma {:induction false} SettledMore(met: seq<Met>, x: Met, known: set<Key>, budgets: seq<int>)
    requires AllSettled(met, known, budgets) && forall link :: link in x.obj.links ==> Settled(x, link, known, budgets)
    ensures AllSettled(met + [x], known, budgets)
  {
  }

  /** The objects met through one answer: all of them, with the selector and the budget of the listing. */
  function MetThrough(a: Answer, n: nat): seq<Met>
    requires n <= |a.thumbnails|
  {
    seq(n, j requires 0 <= j < n => Met(a.thumbnails[j], a.listing.selector, a.listing.budget, Some(a.listing.key)))
  }

  function MetByAnswers(answers: seq<Answer>): seq<Met> {
    if answers == [] then [] else
      var a := answers[|answers| - 1];
      MetByAnswers(answers[..|answers| - 1]) + MetThrough(a, |a.thumbnails|)
  }

  function MetAtStart(objects: seq<Object>, sel: Selector, global: bool): seq<Met> {
    seq(|objects|, i requires 0 <= i < |objects| => Met(objects[i], sel, if global then 0 else i, None))
  }

  // ---------- What the budgets are charged for ----------

  /** A link of the object that was met as number `at`, looked at while its key was unknown, and whether it was followed. */
  datatype Charge = Charge(at: nat, from: Met, index: nat, followed: bool)

  predicate IsLink(c: Charge) {
    c.index < |c.from.obj.links|
  }

  function LinkOf(c: Charge): TargetLink
    requires IsLink(c)
  {
    c.from.obj.links[c.index]
  }

  /** The keys of the links that were followed. */
  function Followed(spent: seq<Charge>): seq<Key> {
    if spent == [] then [] else
      var c := spent[|spent| - 1];
      Followed(spent[..|spent| - 1]) + if c.followed && IsLink(c) then [LinkOf(c).key] else []
  }

  /** How many links have been charged to budget b. */
  function SpentOn(spent: seq<Charge>, b: nat): nat {
    if spent == [] then 0 else SpentOn(spent[..|spent| - 1], b) + if spent[|spent| - 1].from.budget == b then 1 else 0
  }

  /** The charge comes before the link `index` of object number `at`. */
  predicate Earlier(c: Charge, at: nat, index: nat) {
    c.at < at || (c.at == at && c.index < index)
  }

  /** A charge after those in `before`: for a link to a key unknown by then, followed exactly when that was within the limit and the selector admits it. */
  ghost predicate Justified(before: seq<Charge>, c: Charge, initial: set<Key>, limit: int) {
    && IsLink(c) && LinkOf(c).key !in initial && LinkOf(c).key !in Followed(before)
    && (c.followed <==> SpentOn(before, c.from.budget) < limit && Next(c.from.selector, StepOf(c.from.obj.key, LinkOf(c))).Some?)
  }

  ghost predicate Genuine(spent: seq<Charge>, k: nat, met: seq<Met>, initial: set<Key>, limit: int)
    requires k < |spent|
  {
    spent[k].at < |met| && met[spent[k].at] == spent[k].from && Justified(spent[..k], spent[k], initial, limit)
  }

  /** The listed keys are those of the links followed; of every budget just the charges are gone; no link is charged twice. */
  ghost predicate Booked(spent: seq<Charge>, listed: seq<Key>, budgets: seq<int>, met: seq<Met>, initial: set<Key>, limit: int) {
    && listed == Followed(spent) && (forall b :: 0 <= b < |budgets| ==> budgets[b] == limit - SpentOn(spent, b))
    && (forall k :: 0 <= k < |spent| ==> Genuine(spent, k, met, initial, limit))
    && forall j, k :: 0 <= j < k < |spent| ==> Earlier(spent[j], spent[k].at, spent[k].index)
  }

  /** A link was charged, or its key is initial or was followed to before. */
  ghost predicate Seen(spent: seq<Charge>, at: nat, index: nat, key: Key, initial: set<Key>) {
    || key in initial
    || exists k :: 0 <= k < |spent| && SeenBy(spent[k], at, index, key)
  }

  predicate SeenBy(c: Charge, at: nat, index: nat, key: Key) {
    (c.at == at && c.index == index) || (Earlier(c, at, index) && c.followed && IsLink(c) && LinkOf(c).key == key)
  }

  /** The links of the first m objects, and the first n of the next, have been looked at, and no others. */
  ghost predicate LookedUntil(spent: seq<Charge>, met: seq<Met>, initial: set<Key>, m: nat, n: nat) {
    && (forall k :: 0 <= k < |spent| ==> Earlier(spent[k], m, n))
    && forall at, index :: 0 <= at < |met| && 0 <= index < |met[at].obj.links| && (at < m || (at == m && index < n)) ==>
         Seen(spent, at, index, met[at].obj.links[index].key, initial)
  }

  /** The link was charged for and not followed. */
  ghost predicate Dropped(spent: seq<Charge>, at: nat, index: nat) {
    exists k :: 0 <= k < |spent| && spent[k].at == at && spent[k].index == index && !spent[k].followed
  }

  /** The first n links of an object, in their order, without those that were dropped. */
  ghost function KeptLinks(spent: seq<Charge>, at: nat, links: seq<TargetLink>, n: nat): seq<TargetLink>
    requires n <= |links|
  {
    if n == 0 then [] else KeptLinks(spent, at, links, n - 1) + if Dropped(spent, at, n - 1) then [] else [links[n - 1]]
  }

  lemma {:induction false} DroppedMore(spent: seq<Charge>, c: Charge, at: nat, index: nat)
    ensures Dropped(spent + [c], at, index) <==> Dropped(spent, at, index) || (c.at == at && c.index == index && !c.followed)
  {
    var more := spent + [c];
    if k :| 0 <= k < |spent| && spent[k].at == at && spent[k].index == index && !spent[k].followed {
      assert more[k] == spent[k];
    }
    assert more[|spent|] == c;
  }

  lemma {:induction false} KeptNone(spent: seq<Charge>, at: nat, links: seq<TargetLink>)
    ensures KeptLinks(spent, at, links, 0) == []
  {
  }

  /** A charge for a later link changes nothing for the earlier ones. */
  lemma {:induction false} KeptSame(spent: seq<Charge>, c: Charge, at: nat, links: seq<TargetLink>, n: nat)
    requires n <= |links| && (c.at == at ==> c.index >= n)
    ensures KeptLinks(spent + [c], at, links, n) == KeptLinks(spent, at, links, n)
  {
    hide Dropped;
    if n > 0 {
      KeptSame(spent, c, at, links, n - 1);
      DroppedMore(spent, c, at, n - 1);
    }
  }

  /** A link that comes next has not been dropped before. */
  lemma {:induction false} NotDroppedYet(spent: seq<Charge>, met: seq<Met>, initial: set<Key>, m: nat, n: nat)
    requires LookedUntil(spent, met, initial, m, n)
    ensures !Dropped(spent, m, n)
  {
  }

  /** The next link: kept if it was known or followed. */
  lemma {:induction false} KeptNext(spent: seq<Charge>, met: seq<Met>, initial: set<Key>, m: nat, links: seq<TargetLink>, n: nat, charged: bool, c: Charge)
    requires LookedUntil(spent, met, initial, m, n) && n < |links| && c.at == m && c.index == n
    ensures var spent' := if charged then spent + [c] else spent;
            KeptLinks(spent', m, links, n + 1) == KeptLinks(spent, m, links, n) + if charged && !c.followed then [] else [links[n]]
  {
    NotDroppedYet(spent, met, initial, m, n);
    hide Dropped, LookedUntil;
    if charged {
      KeptSame(spent, c, m, links, n);
      DroppedMore(spent, c, m, n);
    }
  }

  lemma {:induction false} NothingSpent(budgets: seq<int>, initial: set<Key>, limit: int)
    requires forall b :: 0 <= b < |budgets| ==> budgets[b] == limit
    ensures Booked([], [], budgets, [], initial, limit) && LookedUntil([], [], initial, 0, 0)
  {
  }

  /** No link of one object is charged twice, and links are charged in the order in which the objects were met and have them. */
  lemma {:induction false} ChargedOnce(spent: seq<Charge>, listed: seq<Key>, budgets: seq<int>, met: seq<Met>, initial: set<Key>, limit: int, j: nat, k: nat)
    requires Booked(spent, listed, budgets, met, initial, limit) && j < k < |spent|
    ensures spent[j].at <= spent[k].at && (spent[j].at == spent[k].at ==> spent[j].index < spent[k].index)
    ensures spent[k].at < |met| && met[spent[k].at] == spent[k].from
  {
    hide Justified;
    assert Genuine(spent, k, met, initial, limit);
  }

  lemma {:induction false} BookedMet(spent: seq<Charge>, listed: seq<Key>, budgets: seq<int>, met: seq<Met>, initial: set<Key>, limit: int, x: Met)
    requires Booked(spent, listed, budgets, met, initial, limit) && LookedUntil(spent, met, initial, |met|, 0)
    ensures Booked(spent, listed, budgets, met + [x], initial, limit) && LookedUntil(spent, met + [x], initial, |met|, 0)
  {
    hide Justified;
    forall k | 0 <= k < |spent| ensures Genuine(spent, k, met + [x], initial, limit) {
      assert Genuine(spent, k, met, initial, limit);
    }
  }

  lemma {:induction false} GenuineMore(spent: seq<Charge>, met: seq<Met>, initial: set<Key>, limit: int, c: Charge, k: nat)
    requires k <= |spent| && c.at < |met| && met[c.at] == c.from && Justified(spent, c, initial, limit)
    requires k < |spent| ==> Genuine(spent, k, met, initial, limit)
    ensures Genuine(spent + [c], k, met, initial, limit)
  {
    assert (spent + [c])[..k] == spent[..k] && spent[..|spent|] == spent;
  }

  lemma {:induction false} TotalsMore(spent: seq<Charge>, c: Charge)
    ensures Followed(spent + [c]) == Followed(spent) + if c.followed && IsLink(c) then [LinkOf(c).key] else []
    ensures forall b :: SpentOn(spent + [c], b) == SpentOn(spent, b) + if c.from.budget == b then 1 else 0
  {
    assert (spent + [c])[..|spent|] == spent;
  }

  /** One more charge, for the link that comes next. */
  lemma {:induction false} BookedMore(spent: seq<Charge>, listed: seq<Key>, budgets: seq<int>, met: seq<Met>, initial: set<Key>, limit: int, c: Charge)
    requires Booked(spent, listed, budgets, met, initial, limit) && forall k :: 0 <= k < |spent| ==> Earlier(spent[k], c.at, c.index)
    requires c.at < |met| && met[c.at] == c.from && IsLink(c) && c.from.budget < |budgets| && LinkOf(c).key !in initial && LinkOf(c).key !in listed
    requires c.followed <==> budgets[c.from.budget] > 0 && Next(c.from.selector, StepOf(c.from.obj.key, LinkOf(c))).Some?
    ensures Booked(spent + [c], if c.followed then listed + [LinkOf(c).key] else listed, budgets[c.from.budget := budgets[c.from.budget] - 1], met, initial, limit)
  {
    assert Justified(spent, c, initial, limit);
    TotalsMore(spent, c);
    hide Genuine, Justified, Followed, SpentOn;
    forall k | 0 <= k < |spent + [c]| ensures Genuine(spent + [c], k, met, initial, limit) {
      GenuineMore(spent, met, initial, limit, c, k);
    }
  }

  lemma {:induction false} SeenMore(spent: seq<Charge>, c: Charge, at: nat, index: nat, key: Key, initial: set<Key>)
    requires Seen(spent, at, index, key, initial) || SeenBy(c, at, index, key)
    ensures Seen(spent + [c], at, index, key, initial)
  {
    if key !in initial {
      if k :| 0 <= k < |spent| && SeenBy(spent[k], at, index, key) {
        assert SeenBy((spent + [c])[k], at, index, key);
      } else {
        assert SeenBy((spent + [c])[|spent|], at, index, key);
      }
    }
  }

  lemma {:induction false} SpentEarlier(spent: seq<Charge>, met: seq<Met>, initial: set<Key>, m: nat, n: nat)
    requires LookedUntil(spent, met, initial, m, n)
    ensures forall k :: 0 <= k < |spent| ==> Earlier(spent[k], m, n)
  {
  }

  /** The next link has been charged. */
  lemma {:induction false} LookedMore(spent: seq<Charge>, met: seq<Met>, initial: set<Key>, m: nat, n: nat, c: Charge)
    requires LookedUntil(spent, met, initial, m, n) && c.at == m && c.index == n
    ensures LookedUntil(spent + [c], met, initial, m, n + 1)
  {
    forall at, index | 0 <= at < |met| && 0 <= index < |met[at].obj.links| && (at < m || (at == m && index < n + 1))
      ensures Seen(spent + [c], at, index, met[at].obj.links[index].key, initial)
    {
      SeenMore(spent, c, at, index, met[at].obj.links[index].key, initial);
    }
  }

  lemma {:induction false} FollowedBy(spent: seq<Charge>, key: Key) returns (k: nat)
    requires key in Followed(spent)
    ensures k < |spent| && spent[k].followed && IsLink(spent[k]) && LinkOf(spent[k]).key == key
  {
    var n := |spent| - 1;
    if key in Followed(spent[..n]) {
      k := FollowedBy(spent[..n], key);
    } else {
      k := n;
    }
  }

  /** The next link leads to a known key. */
  lemma {:induction false} LookedKnown(spent: seq<Charge>, met: seq<Met>, initial: set<Key>, m: nat, n: nat)
    requires LookedUntil(spent, met, initial, m, n) && m < |met| && n < |met[m].obj.links|
    requires met[m].obj.links[n].key in initial || met[m].obj.links[n].key in Followed(spent)
    ensures LookedUntil(spent, met, initial, m, n + 1)
  {
    var key := met[m].obj.links[n].key;
    if key !in initial {
      var k := FollowedBy(spent, key);
      assert SeenBy(spent[k], m, n, key);
    }
    assert Seen(spent, m, n, key, initial);
    hide Seen;
  }

  lemma {:induction false} LookedThrough(spent: seq<Charge>, met: seq<Met>, initial: set<Key>, m: nat)
    requires |met| == m + 1 && LookedUntil(spent, met, initial, m, |met[m].obj.links|)
    ensures LookedUntil(spent, met, initial, m + 1, 0)
  {
    hide Seen;
  }

  class Pool {
    var knownKeys: set<Key>
    var budgets: seq<int>
    var pending: seq<Listing>
    ghost var listed: seq<Key>            // every key ever scheduled, in order
    ghost var charges: seq<nat>           // the budget of each
    ghost var trails: map<Key, Trail>     // the links followed to it
    ghost var met: seq<Met>               // every object whose links have been looked at, in order
    ghost var answers: seq<Answer>        // every listing that has been published, in order
    ghost var spent: seq<Charge>          // every link that a budget was charged for, in order

    constructor (initial: set<Key>, budgets: seq<int>)
      ensures knownKeys == initial && this.budgets == budgets && pending == [] && listed == [] && charges == [] && trails == map[]
      ensures met == [] && answers == [] && spent == []
    {
      knownKeys, this.budgets, pending := initial, budgets, [];
      listed, charges, trails, met, answers, spent := [], [], map[], [], [], [];
    }

    /** All but that the links of the objects met have been looked at. */
    ghost predicate Sound(initial: set<Key>, sel: Selector, limit: int)
      reads this
    {
      && Held(knownKeys, listed, initial) && Funded(budgets, charges, limit)
      && Reached(listed, charges, trails, met, sel)
      && Waiting(pending, listed, trails, sel, |budgets|) && Answered(answers, listed, trails, sel, |budgets|)
      && Accounted(listed, pending, answers)
    }

    ghost predicate Valid(initial: set<Key>, sel: Selector, limit: int)
      reads this
    {
      Sound(initial, sel, limit) && AllSettled(met, knownKeys, budgets) && Exact(initial, limit, |met|, 0)
    }

    /** The charges are right, up to link n of object number m. */
    ghost predicate Exact(initial: set<Key>, limit: int, m: nat, n: nat)
      reads this
    {
      Booked(spent, listed, budgets, met, initial, limit) && LookedUntil(spent, met, initial, m, n)
    }

    /** The listings still to come: those scheduled, and those there is budget for. */
    ghost function Load(): nat
      reads this
    {
      |pending| + Remaining(budgets)
    }

    /** scheduleFrom; `here` is the path that led to the object. */
    method ScheduleFrom(obj: Object, budget: nat, selector: Selector, ghost initial: set<Key>, ghost sel: Selector, ghost limit: int, ghost here: seq<Step>)
      returns (admitted: seq<TargetLink>)
      requires Valid(initial, sel, limit) && budget < |budgets| && After(sel, here) == Some(selector) && Traced(met, sel, Trail(here, budget))
      modifies this
      ensures Valid(initial, sel, limit) && Load() <= old(Load()) && answers == old(answers)
      ensures Onward(old(knownKeys), old(budgets), knownKeys, budgets) && met == old(met) + [Met(obj, selector, budget, Via(here))]
      ensures Traced(met, sel, Trail(here, budget))
      ensures forall l :: l in admitted ==> l in obj.links && l.key in knownKeys
      ensures forall l :: l in obj.links && l.key in old(knownKeys) ==> l in admitted
      ensures forall l :: l in obj.links && l !in admitted ==> Next(selector, StepOf(obj.key, l)).None? || budgets[budget] < 0
      ensures old(spent) <= spent && admitted == KeptLinks(spent, |met| - 1, obj.links, |obj.links|)
    {
      hide KeptLinks, Held, Funded, Reached, Waiting, Answered, Accounted, Remaining, After, AllSettled, Next, StepOf, Traced, Via, Booked, LookedUntil;
      ghost var x := Met(obj, selector, budget, Via(here));
      ReachedMet(listed, charges, trails, met, sel, x);
      TracedMore(met, x, sel, Trail(here, budget));
      BookedMet(spent, listed, budgets, met, initial, limit, x);
      ghost var m := |met|;
      met := met + [x];
      admitted := [];
      KeptNone(spent, m, obj.links);
      for i := 0 to |obj.links|
        invariant Sound(initial, sel, limit) && met == old(met) + [x] && answers == old(answers) && Load() <= old(Load())
        invariant Onward(old(knownKeys), old(budgets), knownKeys, budgets) && Exact(initial, limit, m, i) && old(spent) <= spent
        invariant admitted == KeptLinks(spent, m, obj.links, i)
        invariant forall l :: l in admitted ==> l in obj.links && l.key in knownKeys
        invariant forall j :: 0 <= j < i && obj.links[j].key in old(knownKeys) ==> obj.links[j] in admitted
        invariant forall j :: 0 <= j < i && obj.links[j] !in admitted ==> Next(selector, StepOf(obj.key, obj.links[j])).None? || budgets[budget] < 0
      {
        var link := obj.links[i];
        if link.key in knownKeys {
          KeptNext(spent, met, initial, m, obj.links, i, false, Charge(m, x, i, false));
          KnownSeen(initial, sel, limit, m, i);
          admitted := admitted + [link];
        } else {
          ghost var before := spent;
          var follow := Consider(obj, link, i, budget, selector, initial, sel, limit, here);
          KeptNext(before, met, initial, m, obj.links, i, true, Charge(m, x, i, follow));
          if follow {
            admitted := admitted + [link];
          }
        }
      }
      SettledOnward(old(met), old(knownKeys), old(budgets), knownKeys, budgets);
      SettledMore(old(met), x, knownKeys, budgets);
      LookedThrough(spent, met, initial, m);
    }

    lemma {:induction false} KnownSeen(initial: set<Key>, sel: Selector, limit: int, m: nat, n: nat)
      requires Sound(initial, sel, limit) && Exact(initial, limit, m, n) && m < |met| && n < |met[m].obj.links|
      requires met[m].obj.links[n].key in knownKeys
      ensures Exact(initial, limit, m, n + 1)
    {
      hide LookedUntil;
      assert met[m].obj.links[n].key in initial || met[m].obj.links[n].key in Elems(listed);
      LookedKnown(spent, met, initial, m, n);
    }

    /** A link to an object not known yet: charged to the budget even when the selector then denies it. */
    method Consider(obj: Object, link: TargetLink, ghost index: nat, budget: nat, selector: Selector, ghost initial: set<Key>, ghost sel: Selector, ghost limit: int,
                    ghost here: seq<Step>)
      returns (follow: bool)
      requires Sound(initial, sel, limit) && budget < |budgets| && After(sel, here) == Some(selector) && Traced(met, sel, Trail(here, budget))
      requires index < |obj.links| && obj.links[index] == link && link.key !in knownKeys
      requires met != [] && met[|met| - 1] == Met(obj, selector, budget, Via(here)) && Exact(initial, limit, |met| - 1, index)
      modifies this
      ensures Sound(initial, sel, limit) && Load() <= old(Load()) && met == old(met) && answers == old(answers)
      ensures follow <==> old(budgets)[budget] > 0 && Next(selector, StepOf(obj.key, link)).Some?
      ensures knownKeys == old(knownKeys) + if follow then {link.key} else {}
      ensures budgets == old(budgets)[budget := old(budgets)[budget] - 1]
      ensures Exact(initial, limit, |met| - 1, index + 1) && spent == old(spent) + [Charge(|met| - 1, met[|met| - 1], index, follow)]
    {
      hide Held, Funded, Reached, Waiting, Answered, Accounted, Remaining, After, Traced, Via, Leads, Booked, LookedUntil;
      Spent(budgets, charges, limit, budget);
      var affordable := budgets[budget] > 0;
      ghost var c := Charge(|met| - 1, met[|met| - 1], index, affordable && Next(selector, StepOf(obj.key, link)).Some?);
      Charging(initial, sel, limit, c);
      budgets := budgets[budget := budgets[budget] - 1];
      spent := spent + [c];
      if !affordable {
        return false;
      }
      var step := StepOf(obj.key, link);
      var subSelector := Admit(selector, step);
      if subSelector.None? {
        return false;
      }
      AfterThen(sel, here, step);
      LeadsNext(sel, here, step, subSelector.value);
      TracedNext(met, sel, here, Met(obj, selector, budget, Via(here)), link);
      Book(link.key, subSelector.value, budget, here + [step], initial, sel, limit);
      return true;
    }

    lemma {:induction false} Charging(initial: set<Key>, sel: Selector, limit: int, c: Charge)
      requires Sound(initial, sel, limit) && Exact(initial, limit, c.at, c.index) && IsLink(c) && LinkOf(c).key !in knownKeys
      requires c.at < |met| && met[c.at] == c.from && c.from.budget < |budgets|
      requires c.followed <==> budgets[c.from.budget] > 0 && Next(c.from.selector, StepOf(c.from.obj.key, LinkOf(c))).Some?
      ensures Booked(spent + [c], if c.followed then listed + [LinkOf(c).key] else listed, budgets[c.from.budget := budgets[c.from.budget] - 1], met, initial, limit)
      ensures LookedUntil(spent + [c], met, initial, c.at, c.index + 1)
    {
      hide Funded, Reached, Waiting, Answered, Accounted, Booked, LookedUntil;
      assert LinkOf(c).key !in initial && LinkOf(c).key !in Elems(listed);
      SpentEarlier(spent, met, initial, c.at, c.index);
      BookedMore(spent, listed, budgets, met, initial, limit, c);
      LookedMore(spent, met, initial, c.at, c.index, c);
    }

    /** Inserts the key and schedules its listing. */
    method Book(key: Key, subSelector: Selector, budget: nat, ghost steps: seq<Step>, ghost initial: set<Key>, ghost sel: Selector, ghost limit: int)
      requires Held(knownKeys, listed, initial) && Funded(budgets, charges + [budget], limit)
      requires Reached(listed, charges, trails, met, sel) && Accounted(listed, pending, answers)
      requires Waiting(pending, listed, trails, sel, |budgets|) && Answered(answers, listed, trails, sel, |budgets|)
      requires key !in knownKeys && budget < |budgets|
      requires Leads(sel, steps, key, subSelector) && Traced(met, sel, Trail(steps, budget))
      modifies this
      ensures Sound(initial, sel, limit) && met == old(met) && answers == old(answers) && budgets == old(budgets)
      ensures knownKeys == old(knownKeys) + {key} && |pending| == old(|pending|) + 1 && listed == old(listed) + [key] && spent == old(spent)
    {
      hide Held, Funded, Reached, Waiting, Answered, Accounted, Traced, Leads;
      ghost var trail := Trail(steps, budget);
      HeldMore(knownKeys, listed, initial, key);
      ReachedMore(listed, charges, trails, met, sel, key, trail, subSelector);
      WaitingMore(pending, answers, listed, trails, sel, |budgets|, key, trail, subSelector);
      AccountedMore(listed, pending, answers, Listing(key, subSelector, budget));
      knownKeys := knownKeys + {key};
      pending := pending + [Listing(key, subSelector, budget)];
      listed, charges, trails := listed + [key], charges + [budget], trails[key := trail];
    }

    /** Runs the publish of one listing, whichever comes first, on what the storage returned for it. */
    method Publish(i: nat, thumbnails: seq<Object>, ghost initial: set<Key>, ghost sel: Selector, ghost limit: int)
      requires Valid(initial, sel, limit) && i < |pending|
      modifies this
      ensures Valid(initial, sel, limit) && |budgets| == old(|budgets|) && Load() < old(Load())
      ensures answers == old(answers) + [Answer(old(pending)[i], thumbnails)]
      ensures met == old(met) + MetThrough(Answer(old(pending)[i], thumbnails), |thumbnails|)
    {
      hide Held, Funded, Reached, Accounted, Remaining, After, AllSettled, Traced, Via, Booked, LookedUntil;
      var listing := pending[i];
      ghost var answer := Answer(listing, thumbnails);
      ListingTrail(listed, charges, trails, met, sel, |budgets|, listing);
      ghost var here := trails[listing.key].steps;
      AccountedAnswer(listed, pending, answers, i, thumbnails);
      pending := pending[..i] + pending[i + 1..];
      answers := answers + [answer];
      for j := 0 to |thumbnails|
        invariant Valid(initial, sel, limit) && |budgets| == old(|budgets|) && Load() < old(Load())
        invariant answers == old(answers) + [answer] && Traced(met, sel, Trail(here, listing.budget))
        invariant met == old(met) + MetThrough(answer, j)
      {
        var _ := ScheduleFrom(thumbnails[j], listing.budget, listing.selector, initial, sel, limit, here);
        MetThroughNext(answer, j);
      }
    }
  }

  lemma {:induction false} MetThroughNext(a: Answer, j: nat)
    requires j < |a.thumbnails|
    ensures MetThrough(a, j + 1) == MetThrough(a, j) + [Met(a.thumbnails[j], a.listing.selector, a.listing.budget, Some(a.listing.key))]
  {
  }

  /** A listing's own trail leads to its selector. */
  lemma {:induction false} ListingTrail(listed: seq<Key>, charges: seq<nat>, trails: map<Key, Trail>, met: seq<Met>, sel: Selector, n: nat, l: Listing)
    requires Reached(listed, charges, trails, met, sel) && Waits(l, listed, trails, sel, n)
    ensures l.key in trails && l.budget < n && After(sel, trails[l.key].steps) == Some(l.selector) && Via(trails[l.key].steps) == Some(l.key)
    ensures Traced(met, sel, Trail(trails[l.key].steps, l.budget))
  {
    var j :| 0 <= j < |listed| && listed[j] == l.key;
    assert Arrived(listed[j], charges[j], trails, met, sel);
    assert trails[l.key] == Trail(trails[l.key].steps, l.budget);
  }

  lemma {:induction false} LeadsNext(sel: Selector, here: seq<Step>, s: Step, left: Selector)
    requires After(sel, here + [s]) == Some(left)
    ensures Leads(sel, here + [s], Target(s), left)
  {
  }

  /** A key was listed at the end of an admitted path of links between objects that were met, charged to one budget. */
  ghost predicate ListedFairly(pool: Pool, sel: Selector, k: Key)
    reads pool
  {
    && k in pool.trails && pool.trails[k].steps != [] && Via(pool.trails[k].steps) == Some(k)
    && AdmitsPath(sel, pool.trails[k].steps) && Traced(pool.met, sel, pool.trails[k])
  }

  /** An answer is to a listing of that key, with what the path has left of the selector. */
  ghost predicate AnsweredFairly(pool: Pool, sel: Selector, a: Answer)
    reads pool
  {
    && a.listing.key in pool.listed && a.listing.key in pool.trails
    && After(sel, pool.trails[a.listing.key].steps) == Some(a.listing.selector) && a.listing.budget == pool.trails[a.listing.key].budget
  }

  /** What a whole run of FollowLinks keeps to, however the listings are ordered and whatever they return. */
  ghost predicate KeptTo(pool: Pool, initial: set<Key>, sel: Selector, limit: int, global: bool)
    reads pool
  {
    && NoDup(pool.listed) && Elems(pool.listed) !! initial && |pool.charges| == |pool.listed|
    && (global ==> |pool.listed| <= AtLeastZero(limit))
    && (forall b :: 0 <= b < |pool.budgets| ==> Charged(pool.charges, b) <= AtLeastZero(limit))
    && AllSettled(pool.met, pool.knownKeys, pool.budgets) && pool.knownKeys == initial + Elems(pool.listed)
    && (forall k :: k in pool.listed ==> ListedFairly(pool, sel, k))
    && (forall j :: 0 <= j < |pool.listed| ==> pool.listed[j] in pool.trails && pool.trails[pool.listed[j]].budget == pool.charges[j])
    && (forall i :: 0 <= i < |pool.answers| ==> AnsweredFairly(pool, sel, pool.answers[i]))
    && Accounted(pool.listed, pool.pending, pool.answers)
    && Booked(pool.spent, pool.listed, pool.budgets, pool.met, initial, limit) && LookedUntil(pool.spent, pool.met, initial, |pool.met|, 0)
  }

  lemma {:induction false} ArrivedFairly(pool: Pool, sel: Selector, k: Key, charge: nat)
    requires Arrived(k, charge, pool.trails, pool.met, sel)
    ensures ListedFairly(pool, sel, k) && pool.trails[k].budget == charge
  {
    var left :| Leads(sel, pool.trails[k].steps, k, left);
    AfterIffAdmits(sel, pool.trails[k].steps);
  }

  lemma {:induction false} ValidKeepsTo(pool: Pool, initial: set<Key>, sel: Selector, limit: int, global: bool)
    requires pool.Valid(initial, sel, limit) && (global ==> |pool.budgets| == 1)
    ensures KeptTo(pool, initial, sel, limit, global)
  {
    hide Arrived, ListedFairly, AllSettled, Accounted, Booked, LookedUntil;
    if global {
      ChargedAll(pool.charges);
    }
    forall j | 0 <= j < |pool.listed| ensures ListedFairly(pool, sel, pool.listed[j]) && pool.listed[j] in pool.trails && pool.trails[pool.listed[j]].budget == pool.charges[j] {
      assert Arrived(pool.listed[j], pool.charges[j], pool.trails, pool.met, sel);
      ArrivedFairly(pool, sel, pool.listed[j], pool.charges[j]);
      FairlyHas(pool, sel, pool.listed[j]);
    }
    forall i | 0 <= i < |pool.answers| ensures AnsweredFairly(pool, sel, pool.answers[i]) {
      assert Waits(pool.answers[i].listing, pool.listed, pool.trails, sel, |pool.budgets|);
    }
  }

  lemma {:induction false} FairlyHas(pool: Pool, sel: Selector, k: Key)
    requires ListedFairly(pool, sel, k)
    ensures k in pool.trails
  {
  }

  lemma {:induction false} NothingCharged(n: nat, limit: int)
    ensures Funded(seq(n, _ => limit), [], limit)
  {
  }

  lemma {:induction false} StartSound(initial: set<Key>, sel: Selector, n: nat)
    ensures Held(initial, [], initial) && Reached([], [], map[], [], sel) && Waiting([], [], map[], sel, n) && Answered([], [], map[], sel, n)
    ensures Accounted([], [], []) && forall budgets :: AllSettled([], initial, budgets)
  {
  }

  lemma {:induction false} NothingFollowed(met: seq<Met>, sel: Selector, b: nat)
    ensures Traced(met, sel, Trail([], b)) && After(sel, []) == Some(sel) && Via([]) == None
  {
  }

  lemma {:induction false} StartNext(objects: seq<Object>, sel: Selector, global: bool, i: nat)
    requires i < |objects|
    ensures MetAtStart(objects[..i + 1], sel, global) == MetAtStart(objects[..i], sel, global) + [Met(objects[i], sel, if global then 0 else i, None)]
  {
  }

  lemma {:induction false} AnswersNext(start: seq<Met>, answers: seq<Answer>, a: Answer)
    ensures start + MetByAnswers(answers + [a]) == start + MetByAnswers(answers) + MetThrough(a, |a.thumbnails|)
  {
    assert (answers + [a])[..|answers|] == answers;
  }

  lemma {:induction false} NoneListed(lister: (nat, Key) -> Option<seq<Object>>)
    ensures ListedBy(lister, []) && MetByAnswers([]) == []
  {
  }

  /** The answers are those of the storage, in turn. */
  ghost predicate ListedBy(lister: (nat, Key) -> Option<seq<Object>>, answers: seq<Answer>) {
    forall n: nat :: n < |answers| ==> lister(n, answers[n].listing.key) == Some(answers[n].thumbnails)
  }

  lemma {:induction false} ListedNext(lister: (nat, Key) -> Option<seq<Object>>, answers: seq<Answer>, a: Answer)
    requires ListedBy(lister, answers) && lister(|answers|, a.listing.key) == Some(a.thumbnails)
    ensures ListedBy(lister, answers + [a])
  {
  }

  /**
   FollowLinks over the initial objects. `lister` answers the n-th listing, None for an error, and `next` says which of the
   scheduled listings is published next. Ends, since every publish uses up a listing and only budget makes new ones.
   The objects met are exactly the initial ones and those that the storage answered.
   */
  method FollowLinks(objects: seq<Object>, selector: Selector, limit: int, limitIsGlobal: bool, lister: (nat, Key) -> Option<seq<Object>>, next: (nat, nat) -> nat)
    returns (ok: bool, pool: Pool)
    ensures KeptTo(pool, set o | o in objects :: o.key, selector, limit, limitIsGlobal)
    ensures |pool.budgets| == if limitIsGlobal then 1 else |objects|
    ensures pool.met == MetAtStart(objects, selector, limitIsGlobal) + MetByAnswers(pool.answers)
    ensures ListedBy(lister, pool.answers)
    ensures !ok ==> exists i :: 0 <= i < |pool.pending| && lister(|pool.answers|, pool.pending[i].key).None?
    ensures ok ==> pool.pending == [] && forall k :: k in pool.listed ==> InAnswers(k, pool.answers)
  {
    hide Held, Funded, Reached, Waiting, Answered, Accounted, KeptTo, AllSettled, Traced, Via, After, ListedBy, MetThrough, Booked, LookedUntil;
    NoneListed(lister);
    ghost var initial := set o | o in objects :: o.key;
    var n := if limitIsGlobal then 1 else |objects|;
    pool := new Pool(set o | o in objects :: o.key, seq(n, _ => limit));
    NothingCharged(n, limit);
    NothingSpent(pool.budgets, initial, limit);
    StartSound(initial, selector, n);
    ScheduleInitial(pool, objects, selector, limit, limitIsGlobal, initial, n);
    ghost var start := MetAtStart(objects, selector, limitIsGlobal);
    var round := 0;
    while pool.pending != []
      invariant fresh(pool) && pool.Valid(initial, selector, limit) && |pool.budgets| == n
      invariant round == |pool.answers| && pool.met == start + MetByAnswers(pool.answers)
      invariant ListedBy(lister, pool.answers)
      decreases pool.Load()
    {
      var i := next(round, |pool.pending|) % |pool.pending|;
      var thumbnails := lister(round, pool.pending[i].key);
      round := round + 1;
      if thumbnails.None? {
        ValidKeepsTo(pool, initial, selector, limit, limitIsGlobal);
        return false, pool;
      }
      AnswersNext(start, pool.answers, Answer(pool.pending[i], thumbnails.value));
      ListedNext(lister, pool.answers, Answer(pool.pending[i], thumbnails.value));
      pool.Publish(i, thumbnails.value, initial, selector, limit);
    }
    ValidKeepsTo(pool, initial, selector, limit, limitIsGlobal);
    AllAnswered(pool.listed, pool.answers);
    ok := true;
  }

  lemma {:induction false} AllAnswered(listed: seq<Key>, answers: seq<Answer>)
    requires Accounted(listed, [], answers)
    ensures forall k :: k in listed ==> InAnswers(k, answers)
  {
  }

  /** The first loop of FollowLinks. */
  method ScheduleInitial(pool: Pool, objects: seq<Object>, selector: Selector, limit: int, limitIsGlobal: bool, ghost initial: set<Key>, ghost n: nat)
    requires pool.Valid(initial, selector, limit) && |pool.budgets| == n && n == (if limitIsGlobal then 1 else |objects|)
    requires pool.met == [] && pool.answers == []
    modifies pool
    ensures pool.Valid(initial, selector, limit) && |pool.budgets| == n && pool.answers == []
    ensures pool.met == MetAtStart(objects, selector, limitIsGlobal)
  {
    hide Held, Funded, Reached, Waiting, Answered, Accounted, AllSettled, Traced, Via, After, Booked, LookedUntil;
    for i := 0 to |objects|
      invariant pool.Valid(initial, selector, limit) && |pool.budgets| == n && pool.answers == []
      invariant pool.met == MetAtStart(objects[..i], selector, limitIsGlobal)
    {
      var budget := if limitIsGlobal then 0 else i;
      NothingFollowed(pool.met, selector, budget);
      var _ := pool.ScheduleFrom(objects[i], budget, selector, initial, selector, limit, []);
      StartNext(objects, selector, limitIsGlobal, i);
    }
    assert objects[..|objects|] == objects;
  }

  // ---------- The links of a trail ----------

  /** links are those that the trail follows, one for each step, each a link of the object it is followed from. */
  ghost predicate TrailOf(met: seq<Met>, sel: Selector, t: Trail, from: seq<Met>, links: seq<TargetLink>) {
    |from| == |t.steps| && |links| == |t.steps| && forall i: nat :: i < |t.steps| ==> from[i] in met && IsStep(from[i], links[i], sel, t, i)
  }

  /** The parent links among them, or the others. */
  function UpLinks(links: seq<TargetLink>): set<nat> {
    set i: nat | i < |links| && links[i].role == "parent"
  }

  function DownLinks(links: seq<TargetLink>): set<nat> {
    set i: nat | i < |links| && links[i].role != "parent"
  }

  lemma {:induction false} LinksOfTrail(met: seq<Met>, sel: Selector, t: Trail, n: nat) returns (from: seq<Met>, links: seq<TargetLink>)
    requires Traced(met, sel, t) && n <= |t.steps|
    ensures |from| == n && |links| == n && forall i: nat :: i < n ==> from[i] in met && IsStep(from[i], links[i], sel, t, i)
  {
    from, links := [], [];
    if n > 0 {
      from, links := LinksOfTrail(met, sel, t, n - 1);
      assert StepTraced(met, sel, t, n - 1);
      var x, link :| x in met && IsStep(x, link, sel, t, n - 1);
      from, links := from + [x], links + [link];
    }
  }

  /**
   Every listed key was reached by links of objects that were met; under a selector of an upward or downward distance, at most so
   many of them are parent links, or links of other roles.
   */
  lemma {:induction false} TrailWithinDistance(pool: Pool, initial: set<Key>, upwards: bool, distance: nat, limit: int, global: bool, k: Key)
    returns (from: seq<Met>, links: seq<TargetLink>)
    requires KeptTo(pool, initial, DirectedDistance(upwards, distance), limit, global) && k in pool.listed
    ensures k in pool.trails && TrailOf(pool.met, DirectedDistance(upwards, distance), pool.trails[k], from, links)
    ensures links != [] && links[|links| - 1].key == k && from[0].via == None
    ensures forall i :: 0 < i < |links| ==> from[i].via == Some(links[i - 1].key)
    ensures if upwards then |UpLinks(links)| <= distance else |DownLinks(links)| <= distance
  {
    hide AllSettled, Accounted, Booked, LookedUntil, AnsweredFairly;
    assert ListedFairly(pool, DirectedDistance(upwards, distance), k);
    var t := pool.trails[k];
    from, links := LinksOfTrail(pool.met, DirectedDistance(upwards, distance), t, |t.steps|);
    TrailEnds(DirectedDistance(upwards, distance), t, from, links);
    DistanceAdmitsIff(upwards, distance, t.steps);
    LinkDirections(DirectedDistance(upwards, distance), t, from, links);
  }

  lemma {:induction false} LinkDirections(sel: Selector, t: Trail, from: seq<Met>, links: seq<TargetLink>)
    requires |from| == |t.steps| && |links| == |t.steps| && forall i: nat :: i < |t.steps| ==> IsStep(from[i], links[i], sel, t, i)
    ensures UpLinks(links) == StepsUp(t.steps) && DownLinks(links) == StepsDown(t.steps)
  {
    forall i: nat | i < |links| ensures (links[i].role == "parent") == !t.steps[i].fromParent {
      assert IsStep(from[i], links[i], sel, t, i);
    }
  }

  lemma {:induction false} TrailEnds(sel: Selector, t: Trail, from: seq<Met>, links: seq<TargetLink>)
    requires t.steps != [] && |from| == |t.steps| && |links| == |t.steps| && forall i: nat :: i < |t.steps| ==> IsStep(from[i], links[i], sel, t, i)
    ensures Via(t.steps) == Some(links[|links| - 1].key) && from[0].via == None
    ensures forall i :: 0 < i < |links| ==> from[i].via == Some(links[i - 1].key)
  {
    hide IsStep, Via;
    assert t.steps[..|t.steps|] == t.steps;
    ViaAt(sel, t, from, links, |links|);
    StepVia(sel, t, from[0], links[0], 0);
    ViaStart(t);
    forall i: nat | 0 < i < |links| ensures from[i].via == Some(links[i - 1].key) {
      ViaAt(sel, t, from, links, i);
      StepVia(sel, t, from[i], links[i], i);
    }
  }

  lemma {:induction false} ViaStart(t: Trail)
    ensures Via(t.steps[..0]) == None
  {
  }

  lemma {:induction false} StepVia(sel: Selector, t: Trail, x: Met, link: TargetLink, i: nat)
    requires IsStep(x, link, sel, t, i)
    ensures x.via == Via(t.steps[..i]) && Target(t.steps[i]) == link.key
  {
    StepFollows(x.obj.key, link);
  }

  lemma {:induction false} ViaAt(sel: Selector, t: Trail, from: seq<Met>, links: seq<TargetLink>, n: nat)
    requires 0 < n <= |links| == |t.steps| == |from| && forall i: nat :: i < |t.steps| ==> IsStep(from[i], links[i], sel, t, i)
    ensures Via(t.steps[..n]) == Some(links[n - 1].key)
  {
    hide IsStep;
    StepVia(sel, t, from[n - 1], links[n - 1], n - 1);
    assert t.steps[..n][n - 1] == t.steps[n - 1];
  }
}
