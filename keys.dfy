/**
 * The group keys of the three summaries and the order pandas sorts them in:
 * members as Python strings, months chronologically, and task cells with
 * numbers before texts (pandas sorts a mixed object column that way).
 */
module Keys {
  import opened Cells
  import opened Grouping

  datatype MemberMonth = MemberMonth(member: string, month: Date)

  datatype MemberTask = MemberTask(member: string, task: Cell)

  /** Ascending by member, then by month. */
  predicate MemberMonthLt(a: MemberMonth, b: MemberMonth) {
    StrLt(a.member, b.member) || (a.member == b.member && DateLt(a.month, b.month))
  }

  /** Task cells: the missing cell first (it never reaches a group), then numbers by value, then texts. */
  predicate TaskLt(a: Cell, b: Cell) {
    match (a, b)
    case (Blank, Blank) => false
    case (Blank, _) => true
    case (Num(x), Num(y)) => x < y
    case (Num(_), Text(_)) => true
    case (Text(s), Text(t)) => StrLt(s, t)
    case _ => false
  }

  /** Ascending by member, then by task. */
  predicate MemberTaskLt(a: MemberTask, b: MemberTask) {
    StrLt(a.member, b.member) || (a.member == b.member && TaskLt(a.task, b.task))
  }

  lemma StrOrder()
    ensures StrictTotalOrder(StrLt)
  {
    forall a: string ensures !StrLt(a, a) {
      StrLtIrreflexive(a);
    }
    forall a: string, b: string, c: string | StrLt(a, b) && StrLt(b, c) ensures StrLt(a, c) {
      StrLtTransitive(a, b, c);
    }
    forall a: string, b: string | a != b ensures StrLt(a, b) || StrLt(b, a) {
      StrLtTotal(a, b);
    }
  }

  lemma DateOrder()
    ensures StrictTotalOrder(DateLt)
  {
  }

  lemma TaskOrder()
    ensures StrictTotalOrder(TaskLt)
  {
    forall a: Cell ensures !TaskLt(a, a) {
      if a.Text? {
        StrLtIrreflexive(a.s);
      }
    }
    forall a: Cell, b: Cell, c: Cell | TaskLt(a, b) && TaskLt(b, c) ensures TaskLt(a, c) {
      if a.Text? && b.Text? && c.Text? {
        StrLtTransitive(a.s, b.s, c.s);
      }
    }
    forall a: Cell, b: Cell | a != b ensures TaskLt(a, b) || TaskLt(b, a) {
      if a.Text? && b.Text? {
        StrLtTotal(a.s, b.s);
      }
    }
  }

  lemma MemberMonthOrder()
    ensures StrictTotalOrder(MemberMonthLt)
  {
    StrOrder();
    forall a: MemberMonth, b: MemberMonth, c: MemberMonth | MemberMonthLt(a, b) && MemberMonthLt(b, c)
      ensures MemberMonthLt(a, c)
    {
      if a.member == b.member && b.member == c.member {
        assert DateLt(a.month, c.month);
      }
    }
  }

  lemma MemberTaskOrder()
    ensures StrictTotalOrder(MemberTaskLt)
  {
    StrOrder();
    TaskOrder();
    forall a: MemberTask, b: MemberTask, c: MemberTask | MemberTaskLt(a, b) && MemberTaskLt(b, c)
      ensures MemberTaskLt(a, c)
    {
      if a.member == b.member && b.member == c.member {
        assert TaskLt(a.task, c.task);
      }
    }
  }
}
