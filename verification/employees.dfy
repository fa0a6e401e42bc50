/** The employee page's split of the staff into entry-level and
    senior-level tables by salary. */
module Employees {
  import opened Seqs

  datatype Employee = Employee(id: int, name: string, role: string, salary: int)

  /** Salaries from this amount up are senior level. */
  const SeniorSalary: int := 50000

  function IsEntry(e: Employee): bool {
    e.salary < SeniorSalary
  }

  function IsSenior(e: Employee): bool {
    e.salary >= SeniorSalary
  }

  /** The entry-level table: the employees paid under 50000, in order. */
  function EntryLevel(es: seq<Employee>): (r: seq<Employee>)
    ensures forall i :: 0 <= i < |r| ==> r[i] in es && r[i].salary < 50000
    ensures forall i :: 0 <= i < |es| && es[i].salary < 50000 ==> es[i] in r
  {
    Filter(IsEntry, es)
  }

  /** The senior-level table: the employees paid 50000 or more, in order. */
  function SeniorLevel(es: seq<Employee>): (r: seq<Employee>)
    ensures forall i :: 0 <= i < |r| ==> r[i] in es && r[i].salary >= 50000
    ensures forall i :: 0 <= i < |es| && es[i].salary >= 50000 ==> es[i] in r
  {
    Filter(IsSenior, es)
  }

  /** The two tables partition the staff: every employee appears in
      exactly one of them, as often as in the input, so their sizes add up
      to the staff size. */
  lemma TablesPartitionStaff(es: seq<Employee>)
    ensures multiset(EntryLevel(es)) + multiset(SeniorLevel(es)) == multiset(es)
    ensures |EntryLevel(es)| + |SeniorLevel(es)| == |es|
    ensures forall i :: 0 <= i < |es| ==> (es[i] in EntryLevel(es) <==> es[i] !in SeniorLevel(es))
  {
    FilterPartition(IsEntry, IsSenior, es);
    forall i | 0 <= i < |es|
      ensures es[i] in EntryLevel(es) <==> es[i] !in SeniorLevel(es)
    {
    }
  }

  /** Staff added later lands after the earlier staff in its table. */
  lemma TablesKeepOrder(es: seq<Employee>, more: seq<Employee>)
    ensures EntryLevel(es + more) == EntryLevel(es) + EntryLevel(more)
    ensures SeniorLevel(es + more) == SeniorLevel(es) + SeniorLevel(more)
  {
    FilterAppend(IsEntry, es, more);
    FilterAppend(IsSenior, es, more);
  }
}
