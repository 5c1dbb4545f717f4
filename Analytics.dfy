/**
 * The manager statistics of src/services/analytics.service.ts: the per-day
 * ranking of managers by operations, the name filter used by inline search,
 * and the default manager kept in the chat session. The CRM calls are
 * inputs: the manager list (or `None` when fetching it failed) and, for each
 * manager, the bonus list (or `None` when fetching it failed).
 */
module Analytics {
  import opened Wrappers
  import opened Text
  import opened Sorting
  import opened Api

  datatype Manager = Manager(id: string, name: string)

  /** One entry of the statistics list. */
  datatype ManagerStats = ManagerStats(id: string, name: string, stats: OperationsResult)

  /** `toLowerCase`, character by character with the given mapping. */
  function Lower(s: string, lower: char -> char): (r: string)
    ensures |r| == |s|
  {
    seq(|s|, i requires 0 <= i < |s| => lower(s[i]))
  }

  /** The manager's name contains the normalised query. */
  predicate NameMatches(m: ManagerStats, q: string, lower: char -> char) {
    Contains(Lower(m.name, lower), q)
  }

  /** `managers.filter(...)` with the normalised query `q`. */
  function Filter(ms: seq<ManagerStats>, q: string, lower: char -> char): (r: seq<ManagerStats>)
    ensures forall m :: m in r <==> m in ms && NameMatches(m, q, lower)
    ensures forall m :: multiset(r)[m] == if NameMatches(m, q, lower) then multiset(ms)[m] else 0
    ensures |r| <= |ms|
  {
    if ms == [] then []
    else
      assert ms == [ms[0]] + ms[1..];
      (if NameMatches(ms[0], q, lower) then [ms[0]] else []) + Filter(ms[1..], q, lower)
  }

  /**
   * `filterManagers`: a blank query keeps the list; otherwise the managers
   * whose lowered name contains the lowered, trimmed query.
   */
  function FilterManagers(ms: seq<ManagerStats>, query: string, lower: char -> char): (r: seq<ManagerStats>)
    ensures Trim(query) == [] ==> r == ms
    ensures Trim(query) != [] ==>
      forall m :: m in r <==> m in ms && NameMatches(m, Trim(Lower(query, lower)), lower)
    ensures Trim(query) != [] ==>
      forall m :: multiset(r)[m] == if NameMatches(m, Trim(Lower(query, lower)), lower) then multiset(ms)[m] else 0
  {
    if Trim(query) == [] then ms
    else Filter(ms, Trim(Lower(query, lower)), lower)
  }

  /** `a` is `b` with some elements left out, the rest in their order. */
  predicate IsSubsequence<T(==)>(a: seq<T>, b: seq<T>)
    decreases |b|
  {
    if a == [] then true
    else if b == [] then false
    else if a[0] == b[0] then IsSubsequence(a[1..], b[1..])
    else IsSubsequence(a, b[1..])
  }

  lemma {:induction false} SubsequenceOfSelf<T>(a: seq<T>)
    ensures IsSubsequence(a, a)
  {
    if a != [] {
      SubsequenceOfSelf(a[1..]);
    }
  }

  lemma {:induction false} FilterIsSubsequence(ms: seq<ManagerStats>, q: string, lower: char -> char)
    ensures IsSubsequence(Filter(ms, q, lower), ms)
  {
    if ms != [] {
      FilterIsSubsequence(ms[1..], q, lower);
      var rest := Filter(ms[1..], q, lower);
      if NameMatches(ms[0], q, lower) {
        assert Filter(ms, q, lower) == [ms[0]] + rest;
        assert ([ms[0]] + rest)[1..] == rest;
      } else {
        assert Filter(ms, q, lower) == rest;
        SkipHead(rest, ms);
      }
    }
  }

  /** A subsequence of the tail is a subsequence of the whole. */
  lemma {:induction false} SkipHead<T>(a: seq<T>, b: seq<T>)
    requires b != [] && IsSubsequence(a, b[1..])
    ensures IsSubsequence(a, b)
    decreases |b|, 1
  {
    if a != [] && a[0] == b[0] {
      DropFirst(a, b[1..]);
    }
  }

  /** Leaving out the first element keeps a subsequence. */
  lemma {:induction false} DropFirst<T>(a: seq<T>, t: seq<T>)
    requires a != [] && IsSubsequence(a, t)
    ensures IsSubsequence(a[1..], t)
    decreases |t|, 2
  {
    if a[0] == t[0] {
      SkipHead(a[1..], t);
    } else {
      DropFirst(a, t[1..]);
      SkipHead(a[1..], t);
    }
  }

  /** The filter keeps the managers it keeps in their original order. */
  lemma FilterManagersKeepsOrder(ms: seq<ManagerStats>, query: string, lower: char -> char)
    ensures IsSubsequence(FilterManagers(ms, query, lower), ms)
  {
    if Trim(query) == [] {
      SubsequenceOfSelf(ms);
    } else {
      FilterIsSubsequence(ms, Trim(Lower(query, lower)), lower);
    }
  }

  const ZeroStats: OperationsResult := OperationsResult(0, 0, 0)

  /** The entry of one manager: its counted operations, or zeros when its bonus list could not be fetched. */
  function StatsEntry(m: Manager, bonuses: Option<seq<Bonus>>, num: string -> Sign): ManagerStats {
    match bonuses
    case Some(list) => ManagerStats(m.id, m.name, CountFrom(SortBonuses(list), 0, num))
    case None => ManagerStats(m.id, m.name, ZeroStats)
  }

  function Total(e: ManagerStats): int {
    e.stats.registrations + e.stats.usages
  }

  /** Ascending by this key is descending by registrations plus usages. */
  function RankKey(e: ManagerStats): Key {
    Key(-Total(e), 0)
  }

  /** The entries whose registrations plus usages come to `t`, in their order. */
  function WithTotal(es: seq<ManagerStats>, t: int): seq<ManagerStats> {
    WithKey(es, RankKey, Key(-t, 0))
  }

  function Entries(fetched: seq<(Manager, Option<seq<Bonus>>)>, num: string -> Sign): (es: seq<ManagerStats>)
    ensures |es| == |fetched|
  {
    seq(|fetched|, i requires 0 <= i < |fetched| => StatsEntry(fetched[i].0, fetched[i].1, num))
  }

  /**
   * `getManagersStats`: no list when the managers could not be fetched;
   * otherwise one entry per manager, ordered from most to fewest operations.
   */
  function GetManagersStats(fetched: Option<seq<(Manager, Option<seq<Bonus>>)>>, num: string -> Sign)
    : (r: seq<ManagerStats>)
    ensures fetched.None? ==> r == []
    ensures fetched.Some? ==> multiset(r) == multiset(Entries(fetched.value, num))
    ensures fetched.Some? ==> |r| == |fetched.value|
    ensures forall i, j :: 0 <= i < j < |r| ==> Total(r[i]) >= Total(r[j])
    ensures fetched.Some? ==> forall t :: WithTotal(r, t) == WithTotal(Entries(fetched.value, num), t)
  {
    match fetched
    case None => []
    case Some(list) =>
      var r := SortBy(Entries(list, num), RankKey);
      assert forall i, j :: 0 <= i < j < |r| ==> KeyLe(RankKey(r[i]), RankKey(r[j]));
      RankingStable(Entries(list, num));
      r
  }

  /** Ranking keeps the entries of each total in their order. */
  lemma RankingStable(es: seq<ManagerStats>)
    ensures forall t :: WithTotal(SortBy(es, RankKey), t) == WithTotal(es, t)
  {
    forall t {
      SortByStable(es, RankKey, Key(-t, 0));
    }
  }

  /** Two managers whose statistics both failed tie at zero and stay in the order they were fetched. */
  lemma TiesKeepFetchOrder(a: Manager, b: Manager, num: string -> Sign)
    ensures GetManagersStats(Some([(a, None), (b, None)]), num)
      == [ManagerStats(a.id, a.name, ZeroStats), ManagerStats(b.id, b.name, ZeroStats)]
  {
    var es := Entries([(a, None), (b, None)], num);
    assert es == [ManagerStats(a.id, a.name, ZeroStats), ManagerStats(b.id, b.name, ZeroStats)];
    TiedRankingIsFetchOrder(es, 0);
  }

  /** Entries that all have the same total are ranked in the order they came. */
  lemma TiedRankingIsFetchOrder(es: seq<ManagerStats>, t: int)
    requires forall i :: 0 <= i < |es| ==> Total(es[i]) == t
    ensures SortBy(es, RankKey) == es
  {
    var r := SortBy(es, RankKey);
    forall i | 0 <= i < |r|
      ensures Total(r[i]) == t
    {
      assert r[i] in multiset(es);
    }
    RankingStable(es);
    AllOfTotal(es, t);
    AllOfTotal(r, t);
  }

  /** When every entry has total `t`, picking the entries of total `t` keeps them all. */
  lemma {:induction false} AllOfTotal(es: seq<ManagerStats>, t: int)
    requires forall i :: 0 <= i < |es| ==> Total(es[i]) == t
    ensures WithTotal(es, t) == es
  {
    if es != [] {
      AllOfTotal(es[1..], t);
      assert RankKey(es[0]) == Key(-t, 0);
      assert es == [es[0]] + es[1..];
    }
  }

  /** A manager whose statistics failed is listed with zero operations rather than dropped. */
  lemma FailedStatsListedAsZero(fetched: seq<(Manager, Option<seq<Bonus>>)>, k: nat, num: string -> Sign)
    requires k < |fetched| && fetched[k].1.None?
    ensures ManagerStats(fetched[k].0.id, fetched[k].0.name, ZeroStats) in GetManagersStats(Some(fetched), num)
  {
    var es := Entries(fetched, num);
    assert es[k] == ManagerStats(fetched[k].0.id, fetched[k].0.name, ZeroStats);
    assert es[k] in multiset(es);
  }

  /** The position of the first manager with the id. */
  function FindIndex(ms: seq<Manager>, id: string): (r: Option<nat>)
    ensures r.None? <==> forall i :: 0 <= i < |ms| ==> ms[i].id != id
    ensures r.Some? ==> r.value < |ms| && ms[r.value].id == id
    ensures r.Some? ==> forall j :: 0 <= j < r.value ==> ms[j].id != id
  {
    if ms == [] then None
    else if ms[0].id == id then Some(0)
    else match FindIndex(ms[1..], id)
      case None => None
      case Some(i) => Some(i + 1)
  }

  /** `managers.find(m => m.idManager === id)`: the first manager with that id. */
  function FindManager(ms: seq<Manager>, id: string): (r: Option<Manager>)
    ensures r.None? <==> forall i :: 0 <= i < |ms| ==> ms[i].id != id
    ensures r.Some? ==> r.value.id == id
    ensures r.Some? ==> exists i :: 0 <= i < |ms| && ms[i] == r.value && forall j :: 0 <= j < i ==> ms[j].id != id
  {
    match FindIndex(ms, id)
    case None => None
    case Some(i) => Some(ms[i])
  }

  /** The part of the chat session these services use. */
  class Session {
    var defaultManagerName: Option<string>

    constructor ()
      ensures defaultManagerName == None
    {
      defaultManagerName := None;
    }

    /** `saveDefaultManager`. */
    method SaveDefaultManager(managerName: string)
      modifies this
      ensures defaultManagerName == Some(managerName)
    {
      defaultManagerName := Some(managerName);
    }

    /**
     * `saveDefaultManagerById`: stores the name of the first manager with the
     * id and reports it; when the list could not be fetched or holds no such
     * manager, reports failure and leaves the session as it was.
     */
    method SaveDefaultManagerById(managerId: string, managers: Option<seq<Manager>>) returns (saved: bool)
      modifies this
      ensures saved <==> managers.Some? && FindManager(managers.value, managerId).Some?
      ensures saved ==> defaultManagerName == Some(FindManager(managers.value, managerId).value.name)
      ensures !saved ==> defaultManagerName == old(defaultManagerName)
    {
      if managers.None? {
        return false;
      }
      var manager := FindManager(managers.value, managerId);
      if manager.Some? {
        defaultManagerName := Some(manager.value.name);
        return true;
      }
      return false;
    }

    /** `getDefaultManager`. */
    function GetDefaultManager(): Option<string>
      reads this
    {
      defaultManagerName
    }
  }

  /** After a successful save by id, the default is the found manager's name; a failed save keeps the last one. */
  method SaveThenGet(s: Session, managerId: string, managers: Option<seq<Manager>>) returns (name: Option<string>)
    modifies s
    ensures managers.Some? && FindManager(managers.value, managerId).Some? ==>
      name == Some(FindManager(managers.value, managerId).value.name)
    ensures !(managers.Some? && FindManager(managers.value, managerId).Some?) ==> name == old(s.defaultManagerName)
  {
    var _ := s.SaveDefaultManagerById(managerId, managers);
    name := s.GetDefaultManager();
  }
}
