/**
 * The "Create Method" quick fix: when a subscriber registration names a handler
 * method the class does not declare, it synthesizes that method's source text
 * and inserts it after the method holding the registration.
 *
 * Foreign IDE lookups are parameters: the hook targets found for a name, the
 * events collected project-wide, the template-to-method conversion and the
 * editor's document. A PHP class is represented by its presentable FQN.
 */
module CreateMethodQuickFix {
  import opened Wrappers
  import opened Strings

  const Name := "Create Method"
  const FamilyName := "Method"

  // ---------------------------------------------------------------------------
  // Subject lookup (getSubjectTargetOnHook)
  // ---------------------------------------------------------------------------

  /** A PSI element handed back by a lookup: a method (with its containing class,
      which may be absent), a class, or anything else. */
  datatype Candidate =
    | MethodCandidate(containingClass: Option<string>)
    | ClassCandidate(fqn: string)
    | OtherElement

  /** One callback of the project-wide event collector: an element and the event name it registers. */
  datatype CollectedEvent = CollectedEvent(element: Candidate, value: string)

  predicate IsMethodOrClass(c: Candidate)
  {
    c.MethodCandidate? || c.ClassCandidate?
  }

  /** The class a method or class candidate stands for. */
  function SubjectOf(c: Candidate): Option<string>
    requires IsMethodOrClass(c)
  {
    match c
    case MethodCandidate(cls) => cls
    case ClassCandidate(fqn) => Some(fqn)
  }

  /** The collector callback assigns the target for this event. */
  predicate Selects(e: CollectedEvent, hookName: string)
  {
    e.value == hookName && IsMethodOrClass(e.element)
  }

  /** Outcome of the first stage: `None` when no element is a method or class,
      otherwise `Some` of what the first such element yields. */
  function FirstHookTarget(targets: seq<Candidate>): Option<Option<string>>
  {
    if targets == [] then None
    else if IsMethodOrClass(targets[0]) then Some(SubjectOf(targets[0]))
    else FirstHookTarget(targets[1..])
  }

  /** Value of `target[0]` after the collector has seen every event in `events`. */
  function LastEventTarget(events: seq<CollectedEvent>, hookName: string): Option<string>
  {
    if events == [] then None
    else if Selects(events[|events| - 1], hookName) then SubjectOf(events[|events| - 1].element)
    else LastEventTarget(events[..|events| - 1], hookName)
  }

  /** The subject class chosen for `hookName` from the two candidate streams. */
  function SubjectTarget(targets: seq<Candidate>, events: seq<CollectedEvent>, hookName: string): Option<string>
  {
    match FirstHookTarget(targets)
    case Some(subject) => subject
    case None => LastEventTarget(events, hookName)
  }

  lemma {:induction false} FirstHookTargetAt(targets: seq<Candidate>, i: nat)
    requires i < |targets| && IsMethodOrClass(targets[i])
    requires forall k :: 0 <= k < i ==> !IsMethodOrClass(targets[k])
    ensures FirstHookTarget(targets) == Some(SubjectOf(targets[i]))
  {
    if i > 0 {
      assert !IsMethodOrClass(targets[0]);
      FirstHookTargetAt(targets[1..], i - 1);
    }
  }

  lemma {:induction false} FirstHookTargetNone(targets: seq<Candidate>)
    ensures FirstHookTarget(targets).None? <==> forall k :: 0 <= k < |targets| ==> !IsMethodOrClass(targets[k])
  {
    if targets != [] {
      FirstHookTargetNone(targets[1..]);
      if !IsMethodOrClass(targets[0]) {
        assert forall k :: 1 <= k < |targets| ==> targets[k] == targets[1..][k - 1];
      }
    }
  }

  lemma {:induction false} LastEventTargetAt(events: seq<CollectedEvent>, hookName: string, j: nat)
    requires j < |events| && Selects(events[j], hookName)
    requires forall k :: j < k < |events| ==> !Selects(events[k], hookName)
    ensures LastEventTarget(events, hookName) == SubjectOf(events[j].element)
  {
    if j < |events| - 1 {
      var init := events[..|events| - 1];
      assert init[j] == events[j];
      LastEventTargetAt(init, hookName, j);
    }
  }

  lemma {:induction false} LastEventTargetNone(events: seq<CollectedEvent>, hookName: string)
    requires forall k :: 0 <= k < |events| ==> !Selects(events[k], hookName)
    ensures LastEventTarget(events, hookName) == None
  {
    if events != [] {
      var init := events[..|events| - 1];
      assert forall k :: 0 <= k < |init| ==> init[k] == events[k];
      LastEventTargetNone(init, hookName);
    }
  }

  /** The first stage's answer is final: when a hook target is a method or class, the
      collected events are not consulted, even if that method has no containing class. */
  lemma SubjectTargetFirstStage(targets: seq<Candidate>, events: seq<CollectedEvent>, hookName: string, i: nat)
    requires i < |targets| && IsMethodOrClass(targets[i])
    requires forall k :: 0 <= k < i ==> !IsMethodOrClass(targets[k])
    ensures SubjectTarget(targets, events, hookName) == SubjectOf(targets[i])
  {
    FirstHookTargetAt(targets, i);
  }

  /** Without a method or class among the hook targets, the last selecting event decides. */
  lemma SubjectTargetFallback(targets: seq<Candidate>, events: seq<CollectedEvent>, hookName: string, j: nat)
    requires forall k :: 0 <= k < |targets| ==> !IsMethodOrClass(targets[k])
    requires j < |events| && Selects(events[j], hookName)
    requires forall k :: j < k < |events| ==> !Selects(events[k], hookName)
    ensures SubjectTarget(targets, events, hookName) == SubjectOf(events[j].element)
  {
    FirstHookTargetNone(targets);
    LastEventTargetAt(events, hookName, j);
  }

  /** Nothing qualifies in either stream: no subject. */
  lemma SubjectTargetNothing(targets: seq<Candidate>, events: seq<CollectedEvent>, hookName: string)
    requires forall k :: 0 <= k < |targets| ==> !IsMethodOrClass(targets[k])
    requires forall k :: 0 <= k < |events| ==> !Selects(events[k], hookName)
    ensures SubjectTarget(targets, events, hookName) == None
  {
    FirstHookTargetNone(targets);
    LastEventTargetNone(events, hookName);
  }

  /** `getSubjectTargetOnHook`: a loop with an early return over the hook
      targets, then a pass over the collected events overwriting one cell. */
  method GetSubjectTargetOnHook(targets: seq<Candidate>, events: seq<CollectedEvent>, hookName: string)
    returns (subject: Option<string>)
    ensures subject == SubjectTarget(targets, events, hookName)
  {
    var i := 0;
    while i < |targets|
      invariant 0 <= i <= |targets|
      invariant FirstHookTarget(targets) == FirstHookTarget(targets[i..])
    {
      assert targets[i..][1..] == targets[i + 1..];
      var element := targets[i];
      if element.MethodCandidate? {
        return element.containingClass;
      } else if element.ClassCandidate? {
        return Some(element.fqn);
      }
      i := i + 1;
    }
    var target: Option<string> := None;
    var j := 0;
    while j < |events|
      invariant 0 <= j <= |events|
      invariant target == LastEventTarget(events[..j], hookName)
    {
      assert events[..j + 1][..j] == events[..j];
      var event := events[j];
      if event.value == hookName {
        if event.element.MethodCandidate? {
          target := event.element.containingClass;
        } else if event.element.ClassCandidate? {
          target := Some(event.element.fqn);
        }
      }
      j := j + 1;
    }
    assert events[..|events|] == events;
    return target;
  }

  // ---------------------------------------------------------------------------
  // Hook name and type hint
  // ---------------------------------------------------------------------------

  /** An argument of the registering call: a string literal or any other expression. */
  datatype Argument = StringLiteral(contents: string) | OtherExpression

  /** The hook name is read only from a call with more than one argument whose
      first argument is a string literal. */
  function HookName(arguments: seq<Argument>): Option<string>
  {
    if |arguments| > 1 && arguments[0].StringLiteral? then Some(arguments[0].contents) else None
  }

  /** `Class::method::phase` names a hook; anything else is a plain event. */
  predicate IsHook(hookName: Option<string>)
  {
    hookName.Some? && Contains(hookName.value, "::")
  }

  const EventArgsType := "Enlight_Event_EventArgs"
  const HookArgsType := "Enlight_Hook_HookArgs"

  function TypeHint(hookName: Option<string>): string
  {
    if IsHook(hookName) then HookArgsType else EventArgsType
  }

  /** The subject's documentation type: looked up only when a hook name was read. */
  function SubjectDoc(arguments: seq<Argument>, hookTargets: string -> seq<Candidate>,
                      events: seq<CollectedEvent>): Option<string>
  {
    match HookName(arguments)
    case None => None
    case Some(name) => SubjectTarget(hookTargets(name), events, name)
  }

  // ---------------------------------------------------------------------------
  // Method text
  // ---------------------------------------------------------------------------

  function Header(contents: string, typeHint: string): string
  {
    "public function " + contents + "(" + typeHint + " $args) {"
  }

  function VarLine(subjectDoc: string): string
  {
    "/** @var " + subjectDoc + " $subject */\n"
  }

  const SubjectLine := "$subject = $args->getSubject();\n"
  const ReturnRead := "$return = $args->getReturn();\n"
  const ReturnWrite := "$args->setReturn($return);\n"
  const ClosingBrace := "}"

  /** The return-value lines, appended for hooks only. */
  function ReturnFragments(hookName: Option<string>): seq<string>
  {
    if IsHook(hookName) then ["\n", ReturnRead, "\n", ReturnWrite] else []
  }

  /** The subject block, appended only when a subject was found. */
  function SubjectFragments(hookName: Option<string>, subjectDoc: Option<string>): seq<string>
  {
    if subjectDoc.None? then []
    else ["\n", VarLine(subjectDoc.value), SubjectLine] + ReturnFragments(hookName) + ["\n"]
  }

  /** The strings appended to the builder, in order, one per line of appends. */
  function MethodFragments(contents: string, hookName: Option<string>, subjectDoc: Option<string>): seq<string>
  {
    [Header(contents, TypeHint(hookName))] + SubjectFragments(hookName, subjectDoc) + [ClosingBrace]
  }

  /** The template text handed to the method factory. */
  function MethodText(contents: string, hookName: Option<string>, subjectDoc: Option<string>): string
  {
    Concat(MethodFragments(contents, hookName, subjectDoc))
  }

  /** Which lines are emitted, and in which order. */
  lemma MethodFragmentsShape(contents: string, hookName: Option<string>, subjectDoc: Option<string>)
    ensures var f := MethodFragments(contents, hookName, subjectDoc);
      && f[0] == Header(contents, TypeHint(hookName))
      && f[|f| - 1] == ClosingBrace
      && (subjectDoc.None? ==> f == [Header(contents, TypeHint(hookName)), ClosingBrace])
      && (subjectDoc.Some? ==> exists k :: 0 < k < |f| - 2 && f[k] == VarLine(subjectDoc.value) && f[k + 1] == SubjectLine)
      && (ReturnRead in f <==> subjectDoc.Some? && IsHook(hookName))
      && (ReturnWrite in f <==> subjectDoc.Some? && IsHook(hookName))
      && (forall r, w :: 0 <= r < |f| && 0 <= w < |f| && f[r] == ReturnRead && f[w] == ReturnWrite ==> r < w)
  {
    var f := MethodFragments(contents, hookName, subjectDoc);
    var h := Header(contents, TypeHint(hookName));
    assert h[0] == 'p';
    if subjectDoc.Some? {
      var v := VarLine(subjectDoc.value);
      assert v[0] == '/';
      assert f[2] == v && f[3] == SubjectLine;
    }
  }

  /** The subject block as one string: empty without a subject. */
  function SubjectBlock(hookName: Option<string>, subjectDoc: Option<string>): string
  {
    if subjectDoc.None? then ""
    else "\n" + VarLine(subjectDoc.value) + SubjectLine
         + (if IsHook(hookName) then "\n" + ReturnRead + "\n" + ReturnWrite else "")
         + "\n"
  }

  lemma ConcatFour(a: string, b: string, c: string, d: string)
    ensures Concat([a, b, c, d]) == a + b + c + d
  {
    ConcatThree(b, c, d);
    assert [a, b, c, d][1..] == [b, c, d];
  }

  lemma ConcatBlock(nl: string, v: string, sl: string, ret: seq<string>, retText: string)
    requires Concat(ret) == retText
    ensures Concat([nl, v, sl] + ret + [nl]) == nl + v + sl + retText + nl
  {
    ConcatAppend([nl, v, sl] + ret, [nl]);
    ConcatAppend([nl, v, sl], ret);
    ConcatThree(nl, v, sl);
    assert [nl][1..] == [];
  }

  lemma SubjectBlockText(hookName: Option<string>, subjectDoc: Option<string>)
    ensures Concat(SubjectFragments(hookName, subjectDoc)) == SubjectBlock(hookName, subjectDoc)
  {
    if subjectDoc.Some? {
      if IsHook(hookName) {
        ConcatFour("\n", ReturnRead, "\n", ReturnWrite);
        ConcatBlock("\n", VarLine(subjectDoc.value), SubjectLine, ReturnFragments(hookName),
                    "\n" + ReturnRead + "\n" + ReturnWrite);
      } else {
        ConcatBlock("\n", VarLine(subjectDoc.value), SubjectLine, [], "");
      }
    }
  }

  lemma ConcatFrame(h: string, mid: seq<string>, cb: string)
    ensures Concat([h] + mid + [cb]) == h + Concat(mid) + cb
  {
    ConcatAppend([h] + mid, [cb]);
    ConcatAppend([h], mid);
    assert [h][1..] == [] && [cb][1..] == [];
  }

  /** The appended fragments add up to header, subject block and closing brace. */
  lemma MethodTextParts(contents: string, hookName: Option<string>, subjectDoc: Option<string>)
    ensures MethodText(contents, hookName, subjectDoc)
            == Header(contents, TypeHint(hookName)) + SubjectBlock(hookName, subjectDoc) + ClosingBrace
  {
    ConcatFrame(Header(contents, TypeHint(hookName)), SubjectFragments(hookName, subjectDoc), ClosingBrace);
    SubjectBlockText(hookName, subjectDoc);
  }

  /** The text always starts with the header and ends with the closing brace;
      without a subject there is nothing in between. */
  lemma MethodTextFrame(contents: string, hookName: Option<string>, subjectDoc: Option<string>)
    ensures var text := MethodText(contents, hookName, subjectDoc);
      var h := Header(contents, TypeHint(hookName));
      && StartsWith(text, h)
      && text[|text| - 1] == '}'
      && (subjectDoc.None? ==> text == h + ClosingBrace)
  {
    var h := Header(contents, TypeHint(hookName));
    var b := SubjectBlock(hookName, subjectDoc);
    MethodTextParts(contents, hookName, subjectDoc);
    var text := h + b + ClosingBrace;
    assert text[..|h|] == h;
  }

  /** With a subject, the `@var` line is directly followed by the subject line, right
      after the header's line break and before the closing brace. */
  lemma SubjectLinesInText(contents: string, hookName: Option<string>, subjectDoc: Option<string>)
    requires subjectDoc.Some?
    ensures var text := MethodText(contents, hookName, subjectDoc);
      var h := Header(contents, TypeHint(hookName));
      var lines := VarLine(subjectDoc.value) + SubjectLine;
      OccursAt(text, lines, |h| + 1) && |h| + 1 + |lines| < |text|
  {
    var h := Header(contents, TypeHint(hookName));
    MethodTextParts(contents, hookName, subjectDoc);
    var retLines := if IsHook(hookName) then "\n" + ReturnRead + "\n" + ReturnWrite else "";
    SubjectLinesLayout(h, VarLine(subjectDoc.value), SubjectLine, retLines, ClosingBrace);
  }

  /** Where the subject lines sit in a subject block, for arbitrary line texts. */
  lemma SubjectLinesLayout(h: string, v: string, sl: string, ret: string, cb: string)
    ensures var text := h + ("\n" + v + sl + ret + "\n") + cb;
      OccursAt(text, v + sl, |h| + 1) && |h| + 1 + |v + sl| < |text|
  {
    var text := h + ("\n" + v + sl + ret + "\n") + cb;
    assert text == (h + "\n") + (v + sl) + (ret + "\n" + cb);
    OccursInMiddle(h + "\n", v + sl, ret + "\n" + cb);
  }

  /** Where the return lines sit in a subject block, for arbitrary line texts. */
  lemma ReturnLinesLayout(h: string, v: string, sl: string, rr: string, rw: string, cb: string)
    ensures var text := h + ("\n" + v + sl + ("\n" + rr + "\n" + rw) + "\n") + cb;
      var r := |h| + 1 + |v| + |sl| + 1;
      OccursAt(text, rr, r) && OccursAt(text, rw, r + |rr| + 1)
  {
    var text := h + ("\n" + v + sl + ("\n" + rr + "\n" + rw) + "\n") + cb;
    var before := h + "\n" + v + sl + "\n";
    assert text == before + rr + ("\n" + rw + "\n" + cb);
    OccursInMiddle(before, rr, "\n" + rw + "\n" + cb);
    assert text == (before + rr + "\n") + rw + ("\n" + cb);
    OccursInMiddle(before + rr + "\n", rw, "\n" + cb);
  }

  /** For a hook with a subject, the return value is read and then written back. */
  lemma ReturnLinesInText(contents: string, hookName: Option<string>, subjectDoc: Option<string>)
    requires subjectDoc.Some? && IsHook(hookName)
    ensures var text := MethodText(contents, hookName, subjectDoc);
      exists r: nat, w: nat :: r < w && OccursAt(text, ReturnRead, r) && OccursAt(text, ReturnWrite, w)
  {
    var h := Header(contents, TypeHint(hookName));
    var v := VarLine(subjectDoc.value);
    MethodTextParts(contents, hookName, subjectDoc);
    ReturnLinesLayout(h, v, SubjectLine, ReturnRead, ReturnWrite, ClosingBrace);
    var r := |h| + 1 + |v| + |SubjectLine| + 1;
    assert OccursAt(MethodText(contents, hookName, subjectDoc), ReturnRead, r);
    assert OccursAt(MethodText(contents, hookName, subjectDoc), ReturnWrite, r + |ReturnRead| + 1);
  }

  /** A `Class::method::phase` hook whose subject cannot be resolved gets the hook
      argument type but no return-value lines: the hook test sits inside the
      subject block. */
  lemma UnresolvedHookHasNoReturnLines(contents: string, hookName: Option<string>)
    requires IsHook(hookName)
    ensures TypeHint(hookName) == HookArgsType
    ensures MethodText(contents, hookName, None) == Header(contents, HookArgsType) + ClosingBrace
    ensures ReturnRead !in MethodFragments(contents, hookName, None)
    ensures ReturnWrite !in MethodFragments(contents, hookName, None)
  {
    MethodTextFrame(contents, hookName, None);
    assert MethodFragments(contents, hookName, None) == [Header(contents, HookArgsType), ClosingBrace];
    assert ReturnRead[0] == '$' && ReturnWrite[0] == '$' && Header(contents, HookArgsType)[0] == 'p';
  }

  /** The replace hook on the action controller's dispatch is a hook. */
  lemma DispatchReplaceIsHook()
    ensures IsHook(Some("Enlight_Controller_Action::dispatch::replace"))
  {
    assert OccursAt("Enlight_Controller_Action::dispatch::replace", "::", 25);
  }

  /** A name without a colon is a plain event. */
  lemma NoColonNoHook(name: string)
    requires ':' !in name
    ensures TypeHint(Some(name)) == EventArgsType
  {
    forall i: nat | i <= |name|
      ensures !OccursAt(name, "::", i)
    {
      if i + 2 <= |name| {
        assert name[i..i + 2][0] == name[i];
      }
    }
  }

  /** A plain event name such as the front controller's start event gets the event signature. */
  lemma StartDispatchIsPlainEvent()
    ensures TypeHint(Some("Enlight_Controller_Front_StartDispatch")) == EventArgsType
  {
    NoColonNoHook("Enlight_Controller_Front_StartDispatch");
  }



  // ---------------------------------------------------------------------------
  // Applying the fix
  // ---------------------------------------------------------------------------

  /** The method text built for a registering call. */
  function FixTemplate(arguments: seq<Argument>, contents: string, hookTargets: string -> seq<Candidate>,
                       events: seq<CollectedEvent>): string
  {
    MethodText(contents, HookName(arguments), SubjectDoc(arguments, hookTargets, events))
  }

  /** A call that does not name its hook in a string literal gets the plain event
      signature and an empty body: no hook name is read, so no subject is looked up. */
  lemma FixTemplateWithoutHookName(arguments: seq<Argument>, contents: string,
                                   hookTargets: string -> seq<Candidate>, events: seq<CollectedEvent>)
    requires |arguments| <= 1 || !arguments[0].StringLiteral?
    ensures FixTemplate(arguments, contents, hookTargets, events) == Header(contents, EventArgsType) + ClosingBrace
  {
    MethodTextFrame(contents, None, None);
  }

  /** The two signatures part at the first letter after `Enlight_`. */
  lemma HeadersDiffer(contents: string)
    ensures var p := |"public function " + contents + "("| + 8;
      && p < |Header(contents, HookArgsType)| && Header(contents, HookArgsType)[p] == 'H'
      && p < |Header(contents, EventArgsType)| && Header(contents, EventArgsType)[p] == 'E'
  {
  }

  /** The generated method takes hook arguments exactly when the call's first argument,
      among at least two, is a string literal containing `::`, and event arguments otherwise. */
  lemma FixTemplateSignature(arguments: seq<Argument>, contents: string,
                             hookTargets: string -> seq<Candidate>, events: seq<CollectedEvent>)
    ensures StartsWith(FixTemplate(arguments, contents, hookTargets, events), Header(contents, HookArgsType))
            <==> |arguments| > 1 && arguments[0].StringLiteral? && Contains(arguments[0].contents, "::")
    ensures !(|arguments| > 1 && arguments[0].StringLiteral? && Contains(arguments[0].contents, "::")) ==>
            StartsWith(FixTemplate(arguments, contents, hookTargets, events), Header(contents, EventArgsType))
  {
    var hookName := HookName(arguments);
    var text := FixTemplate(arguments, contents, hookTargets, events);
    var h := Header(contents, TypeHint(hookName));
    var p := |"public function " + contents + "("| + 8;
    MethodTextFrame(contents, hookName, SubjectDoc(arguments, hookTargets, events));
    HeadersDiffer(contents);
    assert text[..|h|][p] == text[p];
    if StartsWith(text, Header(contents, HookArgsType)) {
      assert text[..|Header(contents, HookArgsType)|][p] == text[p];
    }
  }

  /** A `@var` line follows the header exactly when a hook name was read and a subject
      class found for it, and it then documents that class and is followed by the
      `$subject` line. */
  lemma FixTemplateSubjectLines(arguments: seq<Argument>, contents: string,
                                hookTargets: string -> seq<Candidate>, events: seq<CollectedEvent>)
    ensures var text := FixTemplate(arguments, contents, hookTargets, events);
      var hookName := HookName(arguments);
      var at := |Header(contents, TypeHint(hookName))| + 1;
      var found := hookName.Some? && SubjectTarget(hookTargets(hookName.value), events, hookName.value).Some?;
      && (OccursAt(text, "/** @var ", at) <==> found)
      && (found ==> OccursAt(text, VarLine(SubjectTarget(hookTargets(hookName.value), events, hookName.value).value)
                                   + SubjectLine, at))
  {
    var hookName := HookName(arguments);
    var subjectDoc := SubjectDoc(arguments, hookTargets, events);
    var text := FixTemplate(arguments, contents, hookTargets, events);
    var h := Header(contents, TypeHint(hookName));
    MethodTextFrame(contents, hookName, subjectDoc);
    if subjectDoc.Some? {
      var lines := VarLine(subjectDoc.value) + SubjectLine;
      SubjectLinesInText(contents, hookName, subjectDoc);
      assert text[|h| + 1..|h| + 1 + |lines|][..9] == lines[..9] == "/** @var ";
      assert text[|h| + 1..|h| + 10] == "/** @var ";
    }
  }

  /** The text of the editor the fix works in. */
  class Document {
    var text: string

    constructor (text: string)
      ensures this.text == text
    {
      this.text := text;
    }

    method InsertString(offset: nat, s: string)
      requires offset <= |text|
      modifies this
      ensures text == old(text)[..offset] + s + old(text)[offset..]
    {
      text := text[..offset] + s + text[offset..];
    }
  }

  /**
   * `enclosingMethodEnd` is the end offset of the method around the registering call,
   * if there is one; `createMethod` turns the template into a method's text, or fails;
   * `editor` is the selected editor's document, if any. The result is the range handed
   * to the reformatter.
   */
  method ApplyFix(enclosingMethodEnd: Option<nat>, arguments: seq<Argument>, contents: string,
                  hookTargets: string -> seq<Candidate>, events: seq<CollectedEvent>,
                  createMethod: string -> Option<string>, editor: Document?)
    returns (reformatRange: Option<(nat, nat)>)
    modifies editor
    ensures var created := createMethod(FixTemplate(arguments, contents, hookTargets, events));
      if enclosingMethodEnd.None? || created.None? || editor == null
         || enclosingMethodEnd.value > |old(editor.text)| then
        reformatRange.None? && (editor != null ==> editor.text == old(editor.text))
      else
        var pos := enclosingMethodEnd.value;
        var inserted := "\n" + created.value;
        && editor.text == old(editor.text)[..pos] + inserted + old(editor.text)[pos..]
        && reformatRange == Some((pos, pos + |inserted|))
  {
    if enclosingMethodEnd.None? {
      return None;
    }
    var hookName := HookName(arguments);
    var subjectDoc: Option<string> := None;
    if hookName.Some? {
      subjectDoc := GetSubjectTargetOnHook(hookTargets(hookName.value), events, hookName.value);
    }
    var insertPos := enclosingMethodEnd.value;
    var created := createMethod(MethodText(contents, hookName, subjectDoc));
    if created.None? {
      return None;
    }
    var inserted := "\n" + created.value;
    if editor == null {
      return None;
    }
    if insertPos > |editor.text| {
      // the selected editor need not show the registering file; the document then
      // refuses the offset and the fix ends without reformatting
      return None;
    }
    editor.InsertString(insertPos, inserted);
    reformatRange := Some((insertPos, insertPos + |inserted|));
  }
}
