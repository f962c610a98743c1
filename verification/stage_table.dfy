/** The traffic light's stage table: the closed set of stages, the stage that
    follows each one, and the number of seconds each one counts down from. */
module StageTable {

  /** The three stages a light can show; no other value exists. */
  datatype Stage = Red | Green | Yellow

  /** The stages in their listed order. The first one is where a light starts
      and what the engine falls back to when the table lets it down. */
  const Order: seq<Stage> := [Red, Green, Yellow]

  /** A stage table: the successor of each stage and its countdown in seconds.
      The entries are maps, not total functions, so that a table with a missing
      entry can be described: the engine defends against one. */
  datatype Table = Table(next: map<Stage, Stage>, duration: map<Stage, nat>)

  /** The table the light ships with: red 5 s, green 4 s, yellow 2 s, cycling
      red, green, yellow, red. */
  const Default: Table := Table(
    map[Red := Green, Green := Yellow, Yellow := Red],
    map[Red := 5, Green := 4, Yellow := 2])

  /** Every stage has a successor and a positive duration. */
  predicate WellFormed(tbl: Table) {
    forall s: Stage :: s in tbl.next && s in tbl.duration && tbl.duration[s] > 0
  }

  /** The successor of `s` in the default table; no stage follows itself. */
  function Next(s: Stage): (r: Stage)
    ensures r != s
  {
    assert s in Default.next by { assert s.Red? || s.Green? || s.Yellow?; }
    Default.next[s]
  }

  /** The countdown of `s` in the default table; always positive. */
  function Duration(s: Stage): (d: nat)
    ensures d > 0
  {
    assert s in Default.duration by { assert s.Red? || s.Green? || s.Yellow?; }
    Default.duration[s]
  }

  /** The default table is total over the three stages. */
  lemma DefaultWellFormed()
    ensures WellFormed(Default)
  {
    forall s: Stage
      ensures s in Default.next && s in Default.duration && Default.duration[s] > 0
    {
      assert Next(s) != s && Duration(s) > 0;
    }
  }

  /** The shipped constants: red first, the order red, green, yellow, and
      durations 5, 4 and 2 seconds. */
  lemma DefaultTable()
    ensures Order[0] == Red
    ensures Next(Red) == Green && Next(Green) == Yellow && Next(Yellow) == Red
    ensures Duration(Red) == 5 && Duration(Green) == 4 && Duration(Yellow) == 2
  {
  }

  /** The cycle has period exactly three and passes through every stage. */
  lemma CycleOfThree(s: Stage)
    ensures Next(Next(Next(s))) == s
    ensures Next(Next(s)) != s
    ensures {s, Next(s), Next(Next(s))} == {Red, Green, Yellow}
  {
  }
}
