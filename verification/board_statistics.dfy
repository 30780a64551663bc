/**
  `getBoardStatistics`: counts and a rounded completion percentage over all
  the cards of a board.  The database lookup is replaced by its result, an
  optional board; the clock is the parameter `now` (milliseconds).
 */
module BoardStatistics {
  import opened Wrappers
  import opened Cards
  import opened JsMath

  datatype Board = Board(title: string, color: string, lists: seq<seq<Card>>)

  datatype PriorityBreakdown = PriorityBreakdown(high: nat, medium: nat, low: nat)

  datatype Statistics = Statistics(
    boardId: string,
    boardTitle: string,
    boardColor: string,
    totalTasks: nat,
    completedTasks: nat,
    pendingTasks: nat,
    overdueTasks: nat,
    completionPercentage: int,
    priorityBreakdown: PriorityBreakdown,
    listsCount: nat
  )

  /** The `NotFoundException` of a missing board. */
  datatype StatisticsError = NotFound

  /** The filters the statistics count by. */
  datatype Criterion =
    | Completed                        // status is DONE
    | Pending                          // status is TODO
    | OverdueAt(now: int)              // deadline set and before now, not DONE
    | OpenWith(priority: CardPriority) // given priority, not DONE
    | Open                             // not DONE

  predicate Matches(c: Card, k: Criterion) {
    match k
    case Completed => c.status == DONE
    case Pending => c.status == TODO
    case OverdueAt(now) => c.deadline.Some? && c.deadline.value < now && c.status != DONE
    case OpenWith(p) => c.priority == p && c.status != DONE
    case Open => c.status != DONE
  }

  /** `cards.filter(...).length` */
  function Count(cards: seq<Card>, k: Criterion): (n: nat)
    ensures n <= |cards|
    decreases |cards|
  {
    if |cards| == 0 then 0
    else (if Matches(cards[0], k) then 1 else 0) + Count(cards[1..], k)
  }

  /** `lists.flatMap(list => list.cards)` */
  function Flatten(lists: seq<seq<Card>>): (r: seq<Card>)
    ensures forall c :: c in r <==> exists i :: 0 <= i < |lists| && c in lists[i]
    decreases |lists|
  {
    if |lists| == 0 then [] else lists[0] + Flatten(lists[1..])
  }

  /** The card counts of the lists, added up. */
  function SumOfLengths(lists: seq<seq<Card>>): nat
    decreases |lists|
  {
    if |lists| == 0 then 0 else |lists[0]| + SumOfLengths(lists[1..])
  }

  /** `Math.round(completed / total * 100)`, or 0 for an empty board, taken over the
      exact quotient: rounding to the nearest integer, halves upward. */
  function CompletionPercentage(completed: nat, total: nat): (p: int)
    ensures total == 0 ==> p == 0
    ensures total > 0 ==> 200 * completed - total < 2 * total * p <= 200 * completed + total
  {
    if total > 0 then (200 * completed + total) / (2 * total) else 0
  }

  function GetBoardStatistics(id: string, board: Option<Board>, now: int): (r: Result<Statistics, StatisticsError>)
    ensures r.Failure? <==> board.None?
    ensures r.Success? ==>
      && r.value.boardId == id
      && r.value.boardTitle == board.value.title
      && r.value.boardColor == board.value.color
      && r.value.listsCount == |board.value.lists|
  {
    match board
    case None => Failure(NotFound)
    case Some(b) =>
      var all := Flatten(b.lists);
      var total := |all|;
      var completed := Count(all, Completed);
      Success(Statistics(
        id,
        b.title,
        b.color,
        total,
        completed,
        Count(all, Pending),
        Count(all, OverdueAt(now)),
        CompletionPercentage(completed, total),
        PriorityBreakdown(Count(all, OpenWith(HIGH)), Count(all, OpenWith(MEDIUM)), Count(all, OpenWith(LOW))),
        |b.lists|))
  }

  // ---------------------------------------------------------------------------
  // Counting lemmas
  // ---------------------------------------------------------------------------

  lemma {:induction false} FlattenLength(lists: seq<seq<Card>>)
    ensures |Flatten(lists)| == SumOfLengths(lists)
    decreases |lists|
  {
    if |lists| > 0 {
      FlattenLength(lists[1..]);
    }
  }

  /** Appending one card raises a count by exactly whether that card matches. */
  lemma {:induction false} CountAppend(cards: seq<Card>, c: Card, k: Criterion)
    ensures Count(cards + [c], k) == Count(cards, k) + (if Matches(c, k) then 1 else 0)
    decreases |cards|
  {
    if |cards| == 0 {
      assert cards + [c] == [c];
    } else {
      assert (cards + [c])[0] == cards[0];
      assert (cards + [c])[1..] == cards[1..] + [c];
      CountAppend(cards[1..], c, k);
    }
  }

  /** The positions of the cards a criterion selects. */
  function Positions(cards: seq<Card>, k: Criterion): set<int> {
    set i | 0 <= i < |cards| && Matches(cards[i], k)
  }

  /** A count is the number of positions whose card matches. */
  lemma {:induction false} CountIsPositions(cards: seq<Card>, k: Criterion)
    ensures Count(cards, k) == |Positions(cards, k)|
    decreases |cards|
  {
    if |cards| > 0 {
      var init, last := cards[..|cards| - 1], cards[|cards| - 1];
      assert cards == init + [last];
      CountAppend(init, last, k);
      CountIsPositions(init, k);
      PositionsAppend(init, last, k);
    }
  }

  /** Appending one card adds its position exactly when it matches. */
  lemma PositionsAppend(cards: seq<Card>, c: Card, k: Criterion)
    ensures |Positions(cards + [c], k)| == |Positions(cards, k)| + (if Matches(c, k) then 1 else 0)
  {
    var extra: set<int> := if Matches(c, k) then {|cards|} else {};
    PositionsAppendSet(cards, c, k);
    assert |cards| !in Positions(cards, k);
    assert Positions(cards, k) * extra == {};
  }

  lemma PositionsAppendSet(cards: seq<Card>, c: Card, k: Criterion)
    ensures Positions(cards + [c], k) == Positions(cards, k) + (if Matches(c, k) then {|cards|} else {})
  {
    var s := cards + [c];
    var before, after := Positions(cards, k), Positions(s, k);
    var extra: set<int> := if Matches(c, k) then {|cards|} else {};
    forall i | i in after ensures i in before + extra {
      if i < |cards| { assert s[i] == cards[i]; }
    }
    forall i | i in before + extra ensures i in after {
      if i < |cards| { assert s[i] == cards[i]; }
    }
  }

  /** A filter that implies another counts no more than it. */
  lemma {:induction false} CountMonotone(cards: seq<Card>, k1: Criterion, k2: Criterion)
    requires forall c :: c in cards && Matches(c, k1) ==> Matches(c, k2)
    ensures Count(cards, k1) <= Count(cards, k2)
    decreases |cards|
  {
    if |cards| > 0 {
      assert cards[0] in cards;
      assert forall c :: c in cards[1..] ==> c in cards;
      CountMonotone(cards[1..], k1, k2);
    }
  }

  /** A filter that matches none of the cards counts zero. */
  lemma {:induction false} CountNone(cards: seq<Card>, k: Criterion)
    requires forall c :: c in cards ==> !Matches(c, k)
    ensures Count(cards, k) == 0
    decreases |cards|
  {
    if |cards| > 0 {
      assert cards[0] in cards;
      assert forall c :: c in cards[1..] ==> c in cards;
      CountNone(cards[1..], k);
    }
  }

  /** Every card is either DONE or open. */
  lemma {:induction false} CompletedPlusOpen(cards: seq<Card>)
    ensures Count(cards, Completed) + Count(cards, Open) == |cards|
    decreases |cards|
  {
    if |cards| > 0 {
      CompletedPlusOpen(cards[1..]);
    }
  }

  /** Every open card has exactly one of the four priority variants. */
  lemma {:induction false} OpenByPriority(cards: seq<Card>)
    ensures Count(cards, OpenWith(HIGH)) + Count(cards, OpenWith(MEDIUM)) + Count(cards, OpenWith(LOW))
          + Count(cards, OpenWith(OtherPriority)) == Count(cards, Open)
    decreases |cards|
  {
    if |cards| > 0 {
      OpenByPriority(cards[1..]);
    }
  }

  // ---------------------------------------------------------------------------
  // Properties of the statistics
  // ---------------------------------------------------------------------------

  predicate KnownStatuses(b: Board) {
    forall c :: c in Flatten(b.lists) ==> c.status == TODO || c.status == DONE
  }

  predicate KnownPriorities(b: Board) {
    forall c :: c in Flatten(b.lists) ==> c.priority != OtherPriority
  }

  /** The totals of a found board: the task total is the sum of the list sizes;
      done plus to-do is the total when those are the only statuses; overdue
      tasks are among the open ones; the priority breakdown counts only open
      tasks and covers all of them when the priorities are the three known ones. */
  lemma StatisticsCounts(id: string, b: Board, now: int)
    ensures var s := GetBoardStatistics(id, Some(b), now).value;
      && s.totalTasks == SumOfLengths(b.lists)
      && s.completedTasks <= s.totalTasks
      && (KnownStatuses(b) ==> s.completedTasks + s.pendingTasks == s.totalTasks)
      && s.overdueTasks <= s.totalTasks - s.completedTasks
      && s.priorityBreakdown.high + s.priorityBreakdown.medium + s.priorityBreakdown.low
           <= s.totalTasks - s.completedTasks
      && (KnownPriorities(b) ==>
           s.priorityBreakdown.high + s.priorityBreakdown.medium + s.priorityBreakdown.low
             == s.totalTasks - s.completedTasks)
  {
    var all := Flatten(b.lists);
    FlattenLength(b.lists);
    CompletedPlusOpen(all);
    if KnownStatuses(b) {
      CountMonotone(all, Pending, Open);
      CountMonotone(all, Open, Pending);
    }
    CountMonotone(all, OverdueAt(now), Open);
    OpenByPriority(all);
    if KnownPriorities(b) {
      CountNone(all, OpenWith(OtherPriority));
    }
  }

  /** What the status counts of a found board count, position by position
      over the cards of all its lists: DONE cards, TODO cards, and cards whose
      deadline is set and before `now` and that are not DONE. */
  lemma StatisticsStatusCounts(id: string, b: Board, now: int)
    ensures var all := Flatten(b.lists); var s := GetBoardStatistics(id, Some(b), now).value;
      && s.totalTasks == |all|
      && s.completedTasks == |set i | 0 <= i < |all| && all[i].status == DONE|
      && s.pendingTasks == |set i | 0 <= i < |all| && all[i].status == TODO|
      && s.overdueTasks == |set i | 0 <= i < |all| && all[i].deadline.Some?
                                    && all[i].deadline.value < now && all[i].status != DONE|
  {
    var all := Flatten(b.lists);
    var s := GetBoardStatistics(id, Some(b), now).value;
    assert s.completedTasks == |set i | 0 <= i < |all| && all[i].status == DONE| by {
      CountIsPositions(all, Completed);
      assert Positions(all, Completed) == set i | 0 <= i < |all| && all[i].status == DONE;
    }
    assert s.pendingTasks == |set i | 0 <= i < |all| && all[i].status == TODO| by {
      CountIsPositions(all, Pending);
      assert Positions(all, Pending) == set i | 0 <= i < |all| && all[i].status == TODO;
    }
    assert s.overdueTasks == |set i | 0 <= i < |all| && all[i].deadline.Some?
                                      && all[i].deadline.value < now && all[i].status != DONE| by {
      CountIsPositions(all, OverdueAt(now));
      assert Positions(all, OverdueAt(now)) == set i | 0 <= i < |all| && all[i].deadline.Some?
                                                    && all[i].deadline.value < now && all[i].status != DONE;
    }
  }

  /** What the priority breakdown of a found board counts: for each of HIGH,
      MEDIUM and LOW, the positions of the cards of that priority that are not
      DONE. */
  lemma StatisticsPriorityCounts(id: string, b: Board, now: int)
    ensures var all := Flatten(b.lists); var s := GetBoardStatistics(id, Some(b), now).value;
      && s.priorityBreakdown.high == |set i | 0 <= i < |all| && all[i].priority == HIGH && all[i].status != DONE|
      && s.priorityBreakdown.medium == |set i | 0 <= i < |all| && all[i].priority == MEDIUM && all[i].status != DONE|
      && s.priorityBreakdown.low == |set i | 0 <= i < |all| && all[i].priority == LOW && all[i].status != DONE|
  {
    var all := Flatten(b.lists);
    var s := GetBoardStatistics(id, Some(b), now).value;
    assert s.priorityBreakdown.high == |set i | 0 <= i < |all| && all[i].priority == HIGH && all[i].status != DONE| by {
      CountIsPositions(all, OpenWith(HIGH));
      assert Positions(all, OpenWith(HIGH)) == set i | 0 <= i < |all| && all[i].priority == HIGH && all[i].status != DONE;
    }
    assert s.priorityBreakdown.medium == |set i | 0 <= i < |all| && all[i].priority == MEDIUM && all[i].status != DONE| by {
      CountIsPositions(all, OpenWith(MEDIUM));
      assert Positions(all, OpenWith(MEDIUM)) == set i | 0 <= i < |all| && all[i].priority == MEDIUM && all[i].status != DONE;
    }
    assert s.priorityBreakdown.low == |set i | 0 <= i < |all| && all[i].priority == LOW && all[i].status != DONE| by {
      CountIsPositions(all, OpenWith(LOW));
      assert Positions(all, OpenWith(LOW)) == set i | 0 <= i < |all| && all[i].priority == LOW && all[i].status != DONE;
    }
  }

  /** The percentage of a found board lies in [0, 100]; it is 0 with nothing done
      and 100 with everything done, and reaches 100 exactly from 99.5% on. */
  lemma PercentageBounds(completed: nat, total: nat)
    requires completed <= total
    ensures 0 <= CompletionPercentage(completed, total) <= 100
    ensures completed == 0 ==> CompletionPercentage(completed, total) == 0
    ensures 0 < total && completed == total ==> CompletionPercentage(completed, total) == 100
    ensures 0 < total ==> (CompletionPercentage(completed, total) == 100 <==> 199 * total <= 200 * completed)
  {
    if total > 0 {
      var p := CompletionPercentage(completed, total);
      var q := 2 * p;
      assert 2 * total * p == total * q;
      // total * q <= 200 * completed + total <= total * 201, so p <= 100
      ScaleCancel(total, q, 201);
      // total * (-1) <= 200 * completed - total < total * q, so p >= 0
      ScaleCancel(total, -1, q);
      if completed == 0 {
        ScaleCancel(total, q, 1);
      }
      if 199 * total <= 200 * completed {
        // total * 198 <= 200 * completed - total < total * q
        ScaleCancel(total, 198, q);
      } else {
        // total * q <= 200 * completed + total < total * 200
        ScaleCancel(total, q, 200);
      }
    }
  }

  /** The percentage of a found board, as served. */
  lemma StatisticsPercentage(id: string, b: Board, now: int)
    ensures var s := GetBoardStatistics(id, Some(b), now).value;
      && 0 <= s.completionPercentage <= 100
      && (s.totalTasks == 0 ==> s.completionPercentage == 0)
      && (0 < s.totalTasks && s.completedTasks == s.totalTasks ==> s.completionPercentage == 100)
      && (s.completedTasks == 0 ==> s.completionPercentage == 0)
  {
    var all := Flatten(b.lists);
    CompletedPlusOpen(all);
    PercentageBounds(Count(all, Completed), |all|);
  }
}
