// Runs of the wrappers that create objects, up to the first assertion that ends
// the test, and the release of everything they made.
module CreateWrappers {
  import opened Text
  import opened Cleanup

  datatype Wrapper =
    | AllocMemory | MapMemory | CreatePipelineCache | CreatePipelineLayout | CreateSampler
    | CreateDescriptorSetLayout | AllocateDescriptorSet | CreateBuffer | CreateBufferView | CreateQueryPool
    | AllocateCommandBuffer | CreateFramebuffer | CreateRenderPass | CreateImage | CreateImageView
    | CreateShaderModule

  // What the Vulkan call that the wrapper makes creates.
  function Makes(w: Wrapper): ObjectType {
    match w
    case AllocMemory => DeviceMemory
    case MapMemory => Mapping
    case CreatePipelineCache => PipelineCache
    case CreatePipelineLayout => PipelineLayout
    case CreateSampler => Sampler
    case CreateDescriptorSetLayout => SetLayout
    case AllocateDescriptorSet => DescriptorSet
    case CreateBuffer => Buffer
    case CreateBufferView => BufferView
    case CreateQueryPool => QueryPool
    case AllocateCommandBuffer => CommandBuffer
    case CreateFramebuffer => Framebuffer
    case CreateRenderPass => RenderPass
    case CreateImage => Image
    case CreateImageView => ImageView
    case CreateShaderModule => ShaderModule
  }

  // What the wrapper pushes.
  function Pushes(w: Wrapper): CommandType {
    match w
    case AllocMemory => CmdDeviceMemory
    case MapMemory => CmdDeviceMemoryMap
    case CreatePipelineCache => CmdPipelineCache
    case CreatePipelineLayout => CmdPipelineLayout
    case CreateSampler => CmdSampler
    case CreateDescriptorSetLayout => CmdDescriptorSetLayout
    case AllocateDescriptorSet => CmdDescriptorSet
    case CreateBuffer => CmdBuffer
    case CreateBufferView => CmdBufferView
    case CreateQueryPool => CmdQueryPool
    case AllocateCommandBuffer => CmdCommandBuffer
    case CreateFramebuffer => CmdFramebuffer
    case CreateRenderPass => CmdRenderPass
    case CreateImage => CmdImage
    case CreateImageView => CmdImageView
    case CreateShaderModule => CmdShaderModule
  }

  predicate FromPool(w: Wrapper) {
    w.AllocateDescriptorSet? || w.AllocateCommandBuffer?
  }

  // What an assertion finds of the test when it yields: whether its result is
  // final, and how many threads it has.
  datatype Moment = Moment(resultIsFinal: bool, threads: nat)

  // Then the thread diverges, even if the condition it asserts holds.
  predicate Cancels(m: Moment) {
    m.resultIsFinal && m.threads > 1
  }

  // An assertion: its condition, and when it is made.
  datatype Check = Check(cond: bool, at: Moment)

  // A wrapper call with what its surroundings answer: the assertions before the
  // Vulkan call, that call's result and handle (for a mapping, the address; the
  // handle is then the memory's), and when the two assertions after it are made.
  // The pool is the one the info structure names.
  datatype Call = Call(w: Wrapper, dev: Handle, pool: Handle, memory: Handle, before: seq<Check>,
                       success: bool, handle: Handle, atResult: Moment, atHandle: Moment)

  predicate Passes(k: Check) {
    k.cond && !Cancels(k.at)
  }

  predicate Reaches(c: Call) {
    forall i :: 0 <= i < |c.before| ==> Passes(c.before[i])
  }

  // The object that the Vulkan call makes: of the device, and perhaps of a pool.
  function ObjectOf(c: Call): Object {
    Object(Makes(c.w),
      if FromPool(c.w) then [c.dev, c.pool, c.handle]
      else if c.w.MapMemory? then [c.dev, c.memory]
      else [c.dev, c.handle])
  }

  // The Vulkan call hands out an object.
  predicate Obtains(c: Call) {
    Reaches(c) && c.success && c.handle != 0
  }

  predicate Completes(c: Call) {
    Obtains(c) && !Cancels(c.atResult) && !Cancels(c.atHandle)
  }

  // What each wrapper gives to its push.
  function PushArgs(c: Call): seq<Handle> {
    match c.w
    case MapMemory => [c.dev, c.memory]
    case AllocateDescriptorSet => [c.dev, c.pool, c.handle]
    case AllocateCommandBuffer => [c.dev, c.pool, c.handle]
    case _ => [c.dev, c.handle]
  }

  function CommandOf(c: Call): Command {
    Command(Pushes(c.w), PushArgs(c))
  }

  // Each wrapper pushes the command that releases what it made.
  lemma CommandReleases(c: Call)
    ensures Releases(CommandOf(c)) == ObjectOf(c) && Proper(CommandOf(c))
  {
  }

  method Assert(k: Check) returns (goesOn: bool)
    ensures goesOn == Passes(k)
  {
    if k.at.resultIsFinal && k.at.threads > 1 {
      return false;
    }
    return k.cond;
  }

  method AssertAll(ks: seq<Check>) returns (goesOn: bool)
    ensures goesOn == forall i :: 0 <= i < |ks| ==> Passes(ks[i])
  {
    for i := 0 to |ks|
      invariant forall j :: 0 <= j < i ==> Passes(ks[j])
    {
      goesOn := Assert(ks[i]);
      if !goesOn {
        return;
      }
    }
    return true;
  }

  // One wrapper. The handle is returned unless an assertion ends the thread;
  // obtained is what the Vulkan call handed out.
  method Create(s: Stack, c: Call) returns (returned: Option<Handle>, obtained: seq<Object>)
    requires s.Valid()
    modifies s
    ensures s.Valid()
    ensures obtained == if Obtains(c) then [ObjectOf(c)] else []
    ensures returned == if Completes(c) then Some(c.handle) else None
    ensures s.commands == old(s.commands) + if Completes(c) then [CommandOf(c)] else []
  {
    obtained := [];
    var goesOn := AssertAll(c.before);
    if !goesOn {
      return None, [];
    }
    if c.success && c.handle != 0 {
      obtained := [ObjectOf(c)];
    }
    goesOn := Assert(Check(c.success, c.atResult));
    if !goesOn {
      return None, obtained;
    }
    goesOn := Assert(Check(c.handle != 0, c.atHandle));
    if !goesOn {
      return None, obtained;
    }
    CommandReleases(c);
    s.Push(Pushes(c.w), PushArgs(c));
    return Some(c.handle), obtained;
  }

  // ----- runs -----

  // The objects handed out in a run that stops at the first call that does not
  // complete.
  function Obtained(calls: seq<Call>): seq<Object> {
    if calls == [] then []
    else (if Obtains(calls[0]) then [ObjectOf(calls[0])] else []) +
         if Completes(calls[0]) then Obtained(calls[1..]) else []
  }

  // The commands it pushes.
  function Pushed(calls: seq<Call>): seq<Command> {
    if calls == [] || !Completes(calls[0]) then [] else [CommandOf(calls[0])] + Pushed(calls[1..])
  }

  // The run's last call, if it does not complete, obtains no object: it was not
  // cancelled between a successful Vulkan call and the push.
  predicate StopsClean(calls: seq<Call>) {
    calls == [] || if Completes(calls[0]) then StopsClean(calls[1..]) else !Obtains(calls[0])
  }

  // Call k is the run's last, and is cancelled between its Vulkan call's success
  // and its push.
  ghost predicate CancelledAt(calls: seq<Call>, k: nat) {
    k < |calls| && (forall j :: 0 <= j < k ==> Completes(calls[j])) && Obtains(calls[k]) &&
    (Cancels(calls[k].atResult) || Cancels(calls[k].atHandle))
  }

  // A run stops clean unless some call of it is so cancelled.
  lemma {:induction false} StopsCleanUnlessCancelled(calls: seq<Call>)
    ensures StopsClean(calls) <==> forall k: nat :: !CancelledAt(calls, k)
  {
    if calls != [] {
      var rest := calls[1..];
      StopsCleanUnlessCancelled(rest);
      if Completes(calls[0]) {
        forall k: nat
          ensures CancelledAt(rest, k) <==> CancelledAt(calls, k + 1)
        {
          assert k < |rest| ==> rest[k] == calls[k + 1];
          if CancelledAt(calls, k + 1) {
            assert forall j :: 0 <= j < k ==> rest[j] == calls[j + 1];
          }
        }
        assert !CancelledAt(calls, 0);
        assert forall k: nat :: k > 0 ==> CancelledAt(rest, k - 1) == CancelledAt(calls, k);
      } else if Obtains(calls[0]) {
        assert CancelledAt(calls, 0);
      }
    }
  }

  // In particular if only failed conditions cut it short.
  lemma {:induction false} FailedConditionsStopClean(calls: seq<Call>)
    requires forall i :: 0 <= i < |calls| ==> !Cancels(calls[i].atResult) && !Cancels(calls[i].atHandle)
    ensures StopsClean(calls)
  {
    StopsCleanUnlessCancelled(calls);
  }

  // A test that starts no second thread loses no object.
  lemma {:induction false} OneThreadStopsClean(calls: seq<Call>)
    requires forall i :: 0 <= i < |calls| ==> calls[i].atResult.threads <= 1 && calls[i].atHandle.threads <= 1
    ensures StopsClean(calls)
  {
    FailedConditionsStopClean(calls);
  }

  // Every condition that a call's assertions check.
  ghost predicate ConditionsHold(c: Call) {
    (forall i :: 0 <= i < |c.before| ==> c.before[i].cond) && c.success && c.handle != 0
  }

  // At none of its assertions is the test's result already final.
  ghost predicate Undecided(c: Call) {
    (forall i :: 0 <= i < |c.before| ==> !c.before[i].at.resultIsFinal) &&
    !c.atResult.resultIsFinal && !c.atHandle.resultIsFinal
  }

  // At none of them has it a second thread.
  ghost predicate Alone(c: Call) {
    (forall i :: 0 <= i < |c.before| ==> c.before[i].at.threads <= 1) &&
    c.atResult.threads <= 1 && c.atHandle.threads <= 1
  }

  // While no result is final, however many threads there are, or while there is
  // one thread, whatever the result, calls complete exactly when their conditions
  // hold; and a run completes exactly when all its calls do.
  lemma {:induction false} UndecidedCompletes(calls: seq<Call>)
    requires forall i :: 0 <= i < |calls| ==> Undecided(calls[i]) || Alone(calls[i])
    ensures |Pushed(calls)| == |calls| <==> forall i :: 0 <= i < |calls| ==> ConditionsHold(calls[i])
    ensures |Pushed(calls)| < |calls| ==> !ConditionsHold(calls[|Pushed(calls)|])
  {
    if calls != [] {
      var c := calls[0];
      assert Completes(c) <==> ConditionsHold(c);
      UndecidedCompletes(calls[1..]);
    }
  }

  // One cut short by cancellation need not: this buffer is never pushed, because
  // another thread has decided the result.
  lemma CancelledBufferLeaks()
    ensures var calls := [Call(CreateBuffer, 1, 0, 0, [], true, 2, Moment(true, 2), Moment(true, 2))];
      !StopsClean(calls) && Obtained(calls) == [Object(Buffer, [1, 2])] && Pushed(calls) == []
  {
  }

  // The commands are, in order, those that release the objects.
  ghost predicate Records(cs: seq<Command>, os: seq<Object>) {
    |cs| == |os| && forall i :: 0 <= i < |os| ==> Releases(cs[i]) == os[i]
  }

  // The stack records what the run obtained, in order; only an object obtained
  // by a cancelled call is missing.
  lemma {:induction false} PushedRecords(calls: seq<Call>)
    ensures StopsClean(calls) ==> Records(Pushed(calls), Obtained(calls))
    ensures !StopsClean(calls) ==>
      |Obtained(calls)| > 0 && Records(Pushed(calls), Obtained(calls)[..|Obtained(calls)| - 1])
  {
    if calls != [] {
      PushedRecords(calls[1..]);
      CommandReleases(calls[0]);
    }
  }

  lemma CallAt(calls: seq<Call>, i: nat)
    requires i < |calls|
    ensures Obtained(calls[i..]) ==
      (if Obtains(calls[i]) then [ObjectOf(calls[i])] else []) +
      if Completes(calls[i]) then Obtained(calls[i + 1..]) else []
    ensures Pushed(calls[i..]) ==
      (if Completes(calls[i]) then [CommandOf(calls[i])] else []) +
      if Completes(calls[i]) then Pushed(calls[i + 1..]) else []
  {
    assert calls[i..][1..] == calls[i + 1..];
  }

  method Run(s: Stack, calls: seq<Call>) returns (obtained: seq<Object>)
    requires s.Valid()
    modifies s
    ensures s.Valid() && s.commands == old(s.commands) + Pushed(calls) && obtained == Obtained(calls)
  {
    obtained := [];
    ghost var pushed: seq<Command> := [];
    for i := 0 to |calls|
      invariant s.Valid() && s.commands == old(s.commands) + pushed
      invariant pushed + Pushed(calls[i..]) == Pushed(calls)
      invariant obtained + Obtained(calls[i..]) == Obtained(calls)
    {
      CallAt(calls, i);
      var returned, more := Create(s, calls[i]);
      ghost var now := if Completes(calls[i]) then [CommandOf(calls[i])] else [];
      Associative(obtained, more, if Completes(calls[i]) then Obtained(calls[i + 1..]) else []);
      Associative(pushed, now, if Completes(calls[i]) then Pushed(calls[i + 1..]) else []);
      Associative(old(s.commands), pushed, now);
      obtained := obtained + more;
      pushed := pushed + now;
      if returned == None {
        return;
      }
    }
  }

  function Reversed(os: seq<Object>): (r: seq<Object>)
    ensures |r| == |os|
  {
    if os == [] then [] else [os[|os| - 1]] + Reversed(os[..|os| - 1])
  }

  lemma {:induction false} ReversedAt(os: seq<Object>, i: nat)
    requires i < |os|
    ensures Reversed(os)[i] == os[|os| - 1 - i]
  {
    if i > 0 {
      ReversedAt(os[..|os| - 1], i - 1);
    }
  }

  lemma {:induction false} UndoneReverses(older: seq<Command>, cs: seq<Command>, os: seq<Object>)
    requires Records(cs, os)
    ensures Undone(older + cs) == Reversed(os) + Undone(older)
  {
    if os == [] {
      assert older + cs == older;
    } else {
      var n := |os| - 1;
      assert cs == cs[..n] + [cs[n]];
      Associative(older, cs[..n], [cs[n]]);
      UndoneReverses(older, cs[..n], os[..n]);
      Associative([os[n]], Reversed(os[..n]), Undone(older));
    }
  }

  // A test that runs the calls and then releases its cleanup stack. Every
  // object is released once and only after all that were created later, then
  // what was on the stack before; and nothing is missing exactly when the test
  // was not cancelled between an object's creation and its push.
  method RunAndRelease(s: Stack, calls: seq<Call>) returns (obtained: seq<Object>, released: seq<Object>)
    requires s.Valid()
    modifies s
    ensures s.Valid() && s.commands == [] && obtained == Obtained(calls)
    ensures released == Reversed(obtained) + Undone(old(s.commands)) <==> forall k: nat :: !CancelledAt(calls, k)
    ensures (exists k: nat :: CancelledAt(calls, k)) ==>
      |obtained| > 0 && released == Reversed(obtained[..|obtained| - 1]) + Undone(old(s.commands))
  {
    obtained := Run(s, calls);
    released := s.PopAll(false);
    PushedRecords(calls);
    StopsCleanUnlessCancelled(calls);
    ghost var recorded := if StopsClean(calls) then obtained else obtained[..|obtained| - 1];
    UndoneReverses(old(s.commands), Pushed(calls), recorded);
    assert |released| == |recorded| + |Undone(old(s.commands))|;
  }
}
