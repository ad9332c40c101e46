/** `TutorialManager` (src/tutorial_manager.py): a bounded index over the
    lessons of the tutorial file.  A lesson is a JSON object; its values are
    kept only as far as the manager reads them. */
module Tutorial {
  import opened Wrappers

  /** A JSON value of a lesson, as far as the manager distinguishes it. */
  datatype Field = Text(s: string) | TextList(items: seq<string>) | OtherJson

  type Lesson = map<string, Field>

  /** Outcome of a lookup that Python may abort with `KeyError`. */
  datatype Checked<T> = Ok(value: T) | KeyError(key: string)

  /** What `get_arrow_move` yields: nothing, the two square names of the
      arrow, or an arrow entry the code cannot index (an exception). */
  datatype ArrowResult = NoArrow | Arrow(from: string, to: string) | BadArrow

  /** Index after `next_lesson` with `count` lessons, or None at the last one. */
  function NextIndex(i: nat, count: nat): (r: Option<nat>)
    ensures r.Some? <==> i + 1 < count
    ensures r.Some? ==> r.value == i + 1 && r.value < count
  {
    if i < count - 1 then Some(i + 1) else None
  }

  /** Index after `prev_lesson`, or None at the first lesson. */
  function PrevIndex(i: nat): (r: Option<nat>)
    ensures r.Some? <==> i > 0
    ensures r.Some? ==> r.value + 1 == i
  {
    if i > 0 then Some(i - 1) else None
  }

  /** A successful step forward is undone by a step back, and the other way round. */
  lemma StepsUndo(i: nat, count: nat)
    ensures NextIndex(i, count).Some? ==> PrevIndex(NextIndex(i, count).value) == Some(i)
    ensures PrevIndex(i).Some? && i < count ==> NextIndex(PrevIndex(i).value, count) == Some(i)
  {
  }

  class TutorialManager {
    var lessons: seq<Lesson>
    var currentLessonIndex: nat

    /** The index stays on a lesson, and at 0 when there are none. */
    ghost predicate Valid()
      reads this
    {
      currentLessonIndex == 0 || currentLessonIndex < |lessons|
    }

    /** The manager starts at the first of the loaded lessons (none when the
        file is missing). */
    constructor (loaded: seq<Lesson>)
      ensures Valid() && lessons == loaded && currentLessonIndex == 0
    {
      lessons := loaded;
      currentLessonIndex := 0;
    }

    /** `get_current_lesson`: None without lessons, else the lesson at the index. */
    function CurrentLesson(): (l: Option<Lesson>)
      reads this
      requires Valid()
      ensures l.None? <==> lessons == []
      ensures l.Some? ==> currentLessonIndex < |lessons| && l.value == lessons[currentLessonIndex]
    {
      if lessons == [] then None else Some(lessons[currentLessonIndex])
    }

    /** `next_lesson`: moves to the following lesson and returns it, or returns
        None at the last lesson and stays there. */
    method NextLesson() returns (l: Option<Lesson>)
      requires Valid()
      modifies this`currentLessonIndex
      ensures Valid()
      ensures NextIndex(old(currentLessonIndex), |lessons|).Some? ==>
                currentLessonIndex == NextIndex(old(currentLessonIndex), |lessons|).value &&
                l == CurrentLesson()
      ensures NextIndex(old(currentLessonIndex), |lessons|).None? ==>
                currentLessonIndex == old(currentLessonIndex) && l == None
    {
      if currentLessonIndex < |lessons| - 1 {
        currentLessonIndex := currentLessonIndex + 1;
        return CurrentLesson();
      }
      return None;
    }

    /** `prev_lesson`: moves to the preceding lesson and returns it, or returns
        None at the first lesson and stays there. */
    method PrevLesson() returns (l: Option<Lesson>)
      requires Valid()
      modifies this`currentLessonIndex
      ensures Valid()
      ensures PrevIndex(old(currentLessonIndex)).Some? ==>
                currentLessonIndex == PrevIndex(old(currentLessonIndex)).value && l == CurrentLesson()
      ensures PrevIndex(old(currentLessonIndex)).None? ==>
                currentLessonIndex == old(currentLessonIndex) && l == None
    {
      if currentLessonIndex > 0 {
        currentLessonIndex := currentLessonIndex - 1;
        return CurrentLesson();
      }
      return None;
    }

    /** `check_move`: false without a lesson (an empty JSON object is falsy
        too); otherwise whether the move's UCI text equals the lesson's
        'expected_move', a lookup that raises when the key is absent. */
    function CheckMove(move: string): (r: Checked<bool>)
      reads this
      requires Valid()
      ensures r == Ok(true) <==>
                CurrentLesson().Some? && "expected_move" in CurrentLesson().value &&
                CurrentLesson().value["expected_move"] == Text(move)
      ensures r.KeyError? <==>
                CurrentLesson().Some? && CurrentLesson().value != map[] &&
                "expected_move" !in CurrentLesson().value
    {
      var lesson := CurrentLesson();
      if lesson.None? || lesson.value == map[] then Ok(false)
      else if "expected_move" !in lesson.value then KeyError("expected_move")
      else Ok(lesson.value["expected_move"] == Text(move))
    }

    /** `get_arrow_move`: nothing exactly when there is no lesson or no 'arrow'
        key; the first two square names when the arrow is a list of at least
        two texts; otherwise the indexing raises (`BadArrow`). */
    function ArrowMove(): (a: ArrowResult)
      reads this
      requires Valid()
      ensures a == NoArrow <==> CurrentLesson().None? || "arrow" !in CurrentLesson().value
      ensures a.Arrow? <==> CurrentLesson().Some? && "arrow" in CurrentLesson().value &&
                            CurrentLesson().value["arrow"].TextList? &&
                            |CurrentLesson().value["arrow"].items| >= 2
      ensures a.Arrow? ==> a.from == CurrentLesson().value["arrow"].items[0] &&
                           a.to == CurrentLesson().value["arrow"].items[1]
    {
      var lesson := CurrentLesson();
      if lesson.None? || lesson.value == map[] || "arrow" !in lesson.value then NoArrow
      else
        match lesson.value["arrow"]
        case TextList(items) => if |items| >= 2 then Arrow(items[0], items[1]) else BadArrow
        case _ => BadArrow
    }
  }
}
