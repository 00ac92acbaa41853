/** The web interface's demo orchestrator (`MockOrchestrator.execute_task`):
    a made-up complexity score, a mode chosen from it, and a canned answer
    picked by keyword. The clock and the random draw are parameters. */
module MockOrchestrator {
  import opened Wrappers
  import opened Text
  import opened Lookup
  import opened ResultFormat

  /** The range of `random.uniform(1, 3)`. */
  predicate ValidDraw(draw: real) {
    1.0 <= draw <= 3.0
  }

  const Ceiling: real := 9.5

  /** Below this score `auto` mode picks a single agent. */
  const SingleBelow: real := 3.0

  /** `min(9.5, len(task) * 0.1 + draw)`, with the product taken exactly. */
  function Complexity(task: string, draw: real): (c: real)
    requires ValidDraw(draw)
    ensures 1.0 <= c <= Ceiling
    ensures c <= |task| as real / 10.0 + draw
    ensures c == Ceiling || c == |task| as real / 10.0 + draw
  {
    var raw := |task| as real / 10.0 + draw;
    if raw < Ceiling then raw else Ceiling
  }

  /** The mode reported: a caller's explicit mode is kept as given; `auto`
      becomes `single` exactly when the score is below 3 and `multi` otherwise. */
  function UsedMode(mode: string, complexity: real): (m: string)
    ensures mode != "auto" ==> m == mode
    ensures mode == "auto" ==> (m == "single" || m == "multi")
    ensures mode == "auto" ==> (m == "single" <==> complexity < SingleBelow)
  {
    if mode == "auto" then (if complexity < SingleBelow then "single" else "multi")
    else mode
  }

  /** A task of twenty characters or more always runs in `multi` mode under
      `auto`, whatever the draw. */
  lemma LongTasksRunMulti(task: string, draw: real)
    requires ValidDraw(draw) && |task| >= 20
    ensures UsedMode("auto", Complexity(task, draw)) == "multi"
  {
  }

  /** Any shorter task runs in `single` mode under the lowest draw, so the
      twenty-character bound is exact. */
  lemma ShortTasksCanRunSingle(task: string)
    requires |task| < 20
    ensures UsedMode("auto", Complexity(task, 1.0)) == "single"
  {
    assert |task| as real / 10.0 + 1.0 < SingleBelow;
  }

  /** For a fixed draw, lengthening the task never turns `multi` into `single`. */
  lemma ModeMonotoneInLength(short: string, long: string, draw: real)
    requires ValidDraw(draw) && |short| <= |long|
    ensures Complexity(short, draw) <= Complexity(long, draw)
    ensures UsedMode("auto", Complexity(short, draw)) == "multi" ==> UsedMode("auto", Complexity(long, draw)) == "multi"
  {
  }

  /** The score to one decimal place, in tenths: the nearest integer to ten
      times the score, ties to even, as `format(c, '.1f')` rounds. */
  function Tenths(c: real): (t: nat)
    requires 1.0 <= c <= Ceiling
    ensures 10 <= t <= 95
    ensures -0.5 <= c * 10.0 - t as real <= 0.5
  {
    RoundHalfEven(c * 10.0)
  }

  /** `f"{complexity:.1f}/10"`: the integer part, a dot, one digit and "/10";
      read back as a decimal it is the score rounded to tenths. */
  function ComplexityLabel(c: real): (s: string)
    requires 1.0 <= c <= Ceiling
    ensures exists whole: string, d: char ::
      s == whole + "." + [d] + "/10" && AllDigits(whole) && IsDigit(d)
      && DigitsValue(whole) * 10 + DigitValue(d) == Tenths(c)
  {
    var t := Tenths(c);
    var whole := NatToString(t / 10);
    var d := DigitChar(t % 10);
    whole + "." + [d] + "/10"
  }

  /** A keyword and the answer it triggers. */
  datatype Canned = Canned(key: string, reply: string)

  const JokeReply: string := "Why do programmers prefer dark mode? Because light attracts bugs!"
  const PythonReply: string := "Python is a high-level, interpreted programming language known for its readability and simplicity."
  const GreetingReply: string := "As an AI assistant integrated with ANUS, I'm functioning optimally. How can I assist you today?"
  const TimePrefix: string := "The current server time is "
  const CreatorReply: string := "I am an interface for ANUS (Autonomous Networked Utility System), designed to provide an intuitive way to interact with AI agents."

  /** The keys in declared order. */
  const Keys: seq<string> := ["tell me a joke", "what is python", "how are you", "what time is it", "who created you"]

  /** The canned answers in declared order; `clock` is the server time as
      `time.strftime("%H:%M:%S")` renders it. */
  function Responses(clock: string): (r: seq<Canned>)
    ensures |r| == |Keys|
    ensures forall i :: 0 <= i < |r| ==> r[i].key == Keys[i]
  {
    [ Canned(Keys[0], JokeReply),
      Canned(Keys[1], PythonReply),
      Canned(Keys[2], GreetingReply),
      Canned(Keys[3], TimePrefix + clock),
      Canned(Keys[4], CreatorReply) ]
  }

  const TimeEntry: nat := 3
  const ShortestKey: nat := 11

  const CalculationReply: string := "I would perform this calculation, but my calculator tool needs maintenance."
  const SearchReply: string := "I would search for this information, but my search tool is currently offline."

  function GenericReply(task: string): string {
    "I've processed your request: '" + task + "'. In a fully implemented system, you would receive a detailed response here."
  }

  /** `word in task.lower()`. */
  predicate Mentions(task: string, word: string) {
    Contains(Lower(task), word)
  }

  predicate KeyMatches(task: string, entry: Canned) {
    Mentions(task, entry.key)
  }

  /** The test the scan applies to each entry. */
  function KeyTest(task: string): Canned -> bool {
    (entry: Canned) => KeyMatches(task, entry)
  }

  /** Entry `i` is the first canned answer whose key the task mentions. */
  predicate FirstCanned(task: string, clock: string, i: nat) {
    IsFirst(Responses(clock), KeyTest(task), i)
  }

  predicate NoCanned(task: string, clock: string) {
    NonePass(Responses(clock), KeyTest(task))
  }

  predicate AsksCalculation(task: string) {
    Mentions(task, "calculate") || Mentions(task, "compute") || Mentions(task, "math")
  }

  predicate AsksSearch(task: string) {
    Mentions(task, "search") || Mentions(task, "find") || Mentions(task, "look up")
  }

  /** The answer: the first canned entry whose key the lower-cased task
      contains; failing that, a calculation notice before a search notice;
      failing both, a generic reply quoting the task as typed. */
  function Answer(task: string, clock: string): (r: string)
    ensures forall i: nat :: FirstCanned(task, clock, i) ==> r == Responses(clock)[i].reply
    ensures NoCanned(task, clock) && AsksCalculation(task) ==> r == CalculationReply
    ensures NoCanned(task, clock) && !AsksCalculation(task) && AsksSearch(task) ==> r == SearchReply
    ensures NoCanned(task, clock) && !AsksCalculation(task) && !AsksSearch(task) ==> r == GenericReply(task)
  {
    match FirstIndex(Responses(clock), KeyTest(task))
    case Some(i) => Responses(clock)[i].reply
    case None =>
      if AsksCalculation(task) then CalculationReply
      else if AsksSearch(task) then SearchReply
      else GenericReply(task)
  }

  /** Every key is at least eleven characters long, so a shorter task never
      gets a canned answer. */
  lemma ShortTasksGetNoCanned(task: string, clock: string)
    requires |task| < ShortestKey
    ensures NoCanned(task, clock)
  {
    assert forall i :: 0 <= i < |Keys| ==> |Keys[i]| >= ShortestKey;
    forall i | 0 <= i < |Responses(clock)|
      ensures !KeyMatches(task, Responses(clock)[i])
    {
      assert |Responses(clock)[i].key| >= ShortestKey;
    }
  }

  /** The first key wins over every later one: a task asking for a joke gets
      the joke whatever else it mentions. */
  lemma JokeComesFirst(task: string, clock: string)
    requires Mentions(task, Keys[0])
    ensures Answer(task, clock) == JokeReply
  {
    assert FirstCanned(task, clock, 0);
  }

  /** A task with no canned key that mentions both a calculation word and a
      search word gets the calculation notice: that category is checked first. */
  lemma CalculationBeforeSearch(task: string, clock: string)
    requires NoCanned(task, clock) && AsksCalculation(task) && AsksSearch(task)
    ensures Answer(task, clock) == CalculationReply
  {
  }

  /** The time answer is the only one that depends on the clock. */
  lemma OnlyTimeAnswerReadsClock(task: string, clock1: string, clock2: string)
    ensures Answer(task, clock1) != Answer(task, clock2) ==>
      FirstCanned(task, clock1, TimeEntry) && FirstCanned(task, clock2, TimeEntry)
  {
    var m1 := FirstIndex(Responses(clock1), KeyTest(task));
    forall i | 0 <= i < |Responses(clock1)|
      ensures Responses(clock1)[i].key == Responses(clock2)[i].key
      ensures i != TimeEntry ==> Responses(clock1)[i].reply == Responses(clock2)[i].reply
    {
    }
    if m1.Some? {
      assert FirstCanned(task, clock1, m1.value);
      assert FirstCanned(task, clock2, m1.value);
    } else {
      assert NoCanned(task, clock2);
    }
  }

  /** The dictionary `execute_task` returns. */
  datatype TaskResponse = TaskResponse(answer: string, mode: string, complexity: string)

  /** `MockOrchestrator.execute_task(task, mode)` with the random draw and the
      server clock supplied. */
  function ExecuteTask(task: string, mode: string, draw: real, clock: string): (r: TaskResponse)
    requires ValidDraw(draw)
    ensures mode != "auto" ==> r.mode == mode
    ensures mode == "auto" && |task| >= 20 ==> r.mode == "multi"
    ensures mode == "auto" ==> r.mode == "single" || r.mode == "multi"
    ensures |task| < ShortestKey && !AsksCalculation(task) && !AsksSearch(task) ==> r.answer == GenericReply(task)
  {
    var complexity := Complexity(task, draw);
    assert |task| < ShortestKey ==> NoCanned(task, clock) by {
      if |task| < ShortestKey {
        ShortTasksGetNoCanned(task, clock);
      }
    }
    TaskResponse(Answer(task, clock), UsedMode(mode, complexity), ComplexityLabel(complexity))
  }
}
