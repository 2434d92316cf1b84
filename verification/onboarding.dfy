/** The three-step onboarding wizard: welcome (nickname), first to-do, final confirmation. */
module Onboarding {
  import opened Wrappers

  /** The wizard's state: the step on screen and the two captured inputs. */
  datatype Wizard = Wizard(step: nat, nickname: string, todo: string)

  /** A click on the one button of the step on screen, with the text typed into its field. */
  datatype Click = Continue(name: string) | StartTodo(task: string)

  /** The initial state: the welcome step, nothing captured. */
  function Start(): (w: Wizard)
    ensures w.step == 0 && w.nickname == "" && w.todo == ""
  {
    Wizard(0, "", "")
  }

  /** `handleWelcomeNext`: record the name and go to the to-do step. */
  function HandleWelcomeNext(w: Wizard, name: string): (r: Wizard)
    ensures r.step == 1 && r.nickname == name && r.todo == w.todo
  {
    w.(nickname := name, step := 1)
  }

  /** `handleTodoNext`: record the task and go to the final step. */
  function HandleTodoNext(w: Wizard, task: string): (r: Wizard)
    ensures r.step == 2 && r.todo == task && r.nickname == w.nickname
  {
    w.(todo := task, step := 2)
  }

  /** What a click does. Only the current step's button is on screen, and it is disabled while
      its field is empty; the field is not trimmed, so whitespace counts as input. */
  function Step(w: Wizard, click: Click): (r: Wizard)
    ensures w.step <= r.step
    ensures w.step == 0 && click.Continue? && click.name != "" ==> r == HandleWelcomeNext(w, click.name)
    ensures w.step == 1 && click.StartTodo? && click.task != "" ==> r == HandleTodoNext(w, click.task)
    ensures r != w ==>
      || (w.step == 0 && click.Continue? && click.name != "" && r == HandleWelcomeNext(w, click.name))
      || (w.step == 1 && click.StartTodo? && click.task != "" && r == HandleTodoNext(w, click.task))
  {
    match click
    case Continue(name) => if w.step == 0 && name != "" then HandleWelcomeNext(w, name) else w
    case StartTodo(task) => if w.step == 1 && task != "" then HandleTodoNext(w, task) else w
  }

  function Run(w: Wizard, clicks: seq<Click>): Wizard
    decreases |clicks|
  {
    if |clicks| == 0 then w else Run(Step(w, clicks[0]), clicks[1..])
  }

  /** The states the wizard can be in: each step past the first has its input captured, and
      nothing is captured ahead of its step. */
  predicate Consistent(w: Wizard) {
    || (w.step == 0 && w.nickname == "" && w.todo == "")
    || (w.step == 1 && w.nickname != "" && w.todo == "")
    || (w.step == 2 && w.nickname != "" && w.todo != "")
  }

  /** Clicking keeps the wizard consistent and never moves it backwards; whatever it captured
      was typed into a field by one of the clicks. */
  lemma {:induction false} RunConsistent(w: Wizard, clicks: seq<Click>)
    requires Consistent(w)
    ensures var r := Run(w, clicks);
      && Consistent(r) && w.step <= r.step
      && (r.nickname == w.nickname || exists k :: 0 <= k < |clicks| && clicks[k] == Continue(r.nickname))
      && (r.todo == w.todo || exists k :: 0 <= k < |clicks| && clicks[k] == StartTodo(r.todo))
    decreases |clicks|
  {
    if |clicks| > 0 {
      var w' := Step(w, clicks[0]);
      RunConsistent(w', clicks[1..]);
      var r := Run(w, clicks);
      if r.nickname != w.nickname && r.nickname != w'.nickname {
        var k :| 0 <= k < |clicks[1..]| && clicks[1..][k] == Continue(r.nickname);
        assert clicks[k + 1] == Continue(r.nickname);
      }
      if r.todo != w.todo && r.todo != w'.todo {
        var k :| 0 <= k < |clicks[1..]| && clicks[1..][k] == StartTodo(r.todo);
        assert clicks[k + 1] == StartTodo(r.todo);
      }
    }
  }

  /** The final step's button: `onComplete(nickname, todo)`, available only on that step. */
  function Complete(w: Wizard): (r: Option<(string, string)>)
    ensures r.Some? <==> w.step == 2
    ensures Consistent(w) && r.Some? ==> r.value.0 != "" && r.value.1 != ""
  {
    if w.step == 2 then Some((w.nickname, w.todo)) else None
  }

  /** Typing a name, then a task, then finishing reports exactly that pair. */
  lemma HappyPath(name: string, task: string)
    requires name != "" && task != ""
    ensures Complete(Run(Start(), [Continue(name), StartTodo(task)])) == Some((name, task))
  {
    var clicks := [Continue(name), StartTodo(task)];
    var w1 := Step(Start(), Continue(name));
    assert w1 == Wizard(1, name, "");
    assert clicks[1..] == [StartTodo(task)];
    assert [StartTodo(task)][1..] == [];
    assert Run(w1, [StartTodo(task)]) == Run(Wizard(2, name, task), []);
    assert Run(Start(), clicks) == Run(w1, clicks[1..]);
  }

  /** Whatever clicks led to completion, the reported pair is a name typed into the welcome
      step and a task typed into the to-do step, neither of them empty. */
  lemma CompletionReportsTypedPair(clicks: seq<Click>)
    requires Complete(Run(Start(), clicks)).Some?
    ensures var (name, task) := Complete(Run(Start(), clicks)).value;
      && name != "" && task != ""
      && (exists k :: 0 <= k < |clicks| && clicks[k] == Continue(name))
      && (exists k :: 0 <= k < |clicks| && clicks[k] == StartTodo(task))
  {
    RunConsistent(Start(), clicks);
  }

  /** Whitespace is not rejected: a name of one space is captured. */
  lemma WhitespaceNameAccepted()
    ensures Step(Start(), Continue(" ")) == Wizard(1, " ", "")
  {
  }
}
