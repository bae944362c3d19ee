// The functions that push cleanup commands, what each is handed to release, and
// what the setup of every test pushes.
module TestSetup {
  import opened Text
  import opened Cleanup
  import opened CreateWrappers

  // A call of one of the push functions, with its arguments.
  datatype Push =
    | PushCallback(func: Handle, data: Handle)
    | PushFree(data: Handle)
    | PushCleanupStack(x: Handle)
    | PushCruImage(x: Handle)
    | PushCruImageArray(x: Handle)
    | PushDebugCb(f: Handle, i: Handle, cb: Handle)
    | PushInstance(x: Handle, a: Handle)
    | PushDevice(x: Handle, a: Handle)
    | PushBuffer(dev: Handle, x: Handle)
    | PushBufferView(dev: Handle, x: Handle)
    | PushCmdBuffer(dev: Handle, pool: Handle, x: Handle)
    | PushCmdPool(dev: Handle, x: Handle)
    | PushDescriptorPool(dev: Handle, x: Handle)
    | PushDescriptorSet(dev: Handle, pool: Handle, x: Handle)
    | PushDescriptorSetLayout(dev: Handle, x: Handle)
    | PushDeviceMemory(dev: Handle, x: Handle)
    | PushDeviceMemoryMap(dev: Handle, x: Handle)
    | PushEvent(dev: Handle, x: Handle)
    | PushFence(dev: Handle, x: Handle)
    | PushFramebuffer(dev: Handle, x: Handle)
    | PushImage(dev: Handle, x: Handle)
    | PushImageView(dev: Handle, x: Handle)
    | PushPipeline(dev: Handle, x: Handle)
    | PushPipelineCache(dev: Handle, x: Handle)
    | PushPipelineLayout(dev: Handle, x: Handle)
    | PushQueryPool(dev: Handle, x: Handle)
    | PushRenderPass(dev: Handle, x: Handle)
    | PushSampler(dev: Handle, x: Handle)
    | PushSemaphore(dev: Handle, x: Handle)
    | PushShaderModule(dev: Handle, x: Handle)

  // The object that the caller hands over, as the types of the arguments say.
  function Handed(p: Push): Object {
    match p
    case PushCallback(func, data) => Object(CallbackDue, [func, data])
    case PushFree(data) => Object(HeapBlock, [data])
    case PushCleanupStack(x) => Object(CleanupStack, [x])
    case PushCruImage(x) => Object(CruImage, [x])
    case PushCruImageArray(x) => Object(CruImageArray, [x])
    case PushDebugCb(f, i, cb) => Object(DebugCallback, [f, i, cb])
    case PushInstance(x, a) => Object(Instance, [x, a])
    case PushDevice(x, a) => Object(Device, [x, a])
    case PushBuffer(dev, x) => Object(Buffer, [dev, x])
    case PushBufferView(dev, x) => Object(BufferView, [dev, x])
    case PushCmdBuffer(dev, pool, x) => Object(CommandBuffer, [dev, pool, x])
    case PushCmdPool(dev, x) => Object(CommandPool, [dev, x])
    case PushDescriptorPool(dev, x) => Object(DescriptorPool, [dev, x])
    case PushDescriptorSet(dev, pool, x) => Object(DescriptorSet, [dev, pool, x])
    case PushDescriptorSetLayout(dev, x) => Object(SetLayout, [dev, x])
    case PushDeviceMemory(dev, x) => Object(DeviceMemory, [dev, x])
    case PushDeviceMemoryMap(dev, x) => Object(Mapping, [dev, x])
    case PushEvent(dev, x) => Object(ObjectType.Event, [dev, x])
    case PushFence(dev, x) => Object(Fence, [dev, x])
    case PushFramebuffer(dev, x) => Object(Framebuffer, [dev, x])
    case PushImage(dev, x) => Object(Image, [dev, x])
    case PushImageView(dev, x) => Object(ImageView, [dev, x])
    case PushPipeline(dev, x) => Object(Pipeline, [dev, x])
    case PushPipelineCache(dev, x) => Object(PipelineCache, [dev, x])
    case PushPipelineLayout(dev, x) => Object(PipelineLayout, [dev, x])
    case PushQueryPool(dev, x) => Object(QueryPool, [dev, x])
    case PushRenderPass(dev, x) => Object(RenderPass, [dev, x])
    case PushSampler(dev, x) => Object(Sampler, [dev, x])
    case PushSemaphore(dev, x) => Object(Semaphore, [dev, x])
    case PushShaderModule(dev, x) => Object(ShaderModule, [dev, x])
  }

  // The command that the function pushes: its type, and its arguments in order.
  function CommandFor(p: Push): Command {
    match p
    case PushCallback(func, data) => Command(CmdCallback, [func, data])
    case PushFree(data) => Command(CmdFree, [data])
    case PushCleanupStack(x) => Command(CmdCleanupStack, [x])
    case PushCruImage(x) => Command(CmdCruImage, [x])
    case PushCruImageArray(x) => Command(CmdCruImageArray, [x])
    case PushDebugCb(f, i, cb) => Command(CmdDebugCb, [f, i, cb])
    case PushInstance(x, a) => Command(CmdInstance, [x, a])
    case PushDevice(x, a) => Command(CmdDevice, [x, a])
    case PushBuffer(dev, x) => Command(CmdBuffer, [dev, x])
    case PushBufferView(dev, x) => Command(CmdBufferView, [dev, x])
    case PushCmdBuffer(dev, pool, x) => Command(CmdCommandBuffer, [dev, pool, x])
    case PushCmdPool(dev, x) => Command(CmdCommandPool, [dev, x])
    case PushDescriptorPool(dev, x) => Command(CmdDescriptorPool, [dev, x])
    case PushDescriptorSet(dev, pool, x) => Command(CmdDescriptorSet, [dev, pool, x])
    case PushDescriptorSetLayout(dev, x) => Command(CmdDescriptorSetLayout, [dev, x])
    case PushDeviceMemory(dev, x) => Command(CmdDeviceMemory, [dev, x])
    case PushDeviceMemoryMap(dev, x) => Command(CmdDeviceMemoryMap, [dev, x])
    case PushEvent(dev, x) => Command(CmdEvent, [dev, x])
    case PushFence(dev, x) => Command(CmdFence, [dev, x])
    case PushFramebuffer(dev, x) => Command(CmdFramebuffer, [dev, x])
    case PushImage(dev, x) => Command(CmdImage, [dev, x])
    case PushImageView(dev, x) => Command(CmdImageView, [dev, x])
    case PushPipeline(dev, x) => Command(CmdPipeline, [dev, x])
    case PushPipelineCache(dev, x) => Command(CmdPipelineCache, [dev, x])
    case PushPipelineLayout(dev, x) => Command(CmdPipelineLayout, [dev, x])
    case PushQueryPool(dev, x) => Command(CmdQueryPool, [dev, x])
    case PushRenderPass(dev, x) => Command(CmdRenderPass, [dev, x])
    case PushSampler(dev, x) => Command(CmdSampler, [dev, x])
    case PushSemaphore(dev, x) => Command(CmdSemaphore, [dev, x])
    case PushShaderModule(dev, x) => Command(CmdShaderModule, [dev, x])
  }

  // Every push function's command releases what the caller handed over, of the
  // type it has and with every handle in its place; there is one function for
  // each command type.
  lemma PushReleases(p: Push)
    ensures Releases(CommandFor(p)) == Handed(p) && Proper(CommandFor(p))
  {
  }

  // Always true: the trigger that keeps the definition of Recorded folded until a
  // proof names it.
  predicate OpenRecorded(w: bool) {
    true
  }

  // On top of older, the stack has the commands that release the objects; folded.
  ghost predicate Recorded(s: Stack, older: seq<Command>, os: seq<Object>)
    reads s
  {
    s.Valid() && forall w {:trigger OpenRecorded(w)} :: OpenRecorded(w) ==>
      |older| <= |s.commands| && s.commands[..|older|] == older && Records(s.commands[|older|..], os)
  }

  method PushOne(s: Stack, p: Push, ghost older: seq<Command>, ghost os: seq<Object>)
    requires Recorded(s, older, os)
    modifies s
    ensures Recorded(s, older, os + [Handed(p)])
  {
    assert OpenRecorded(true);
    PushReleases(p);
    s.Push(CommandFor(p).kind, CommandFor(p).args);
  }

  function HandedAll(ps: seq<Push>): seq<Object> {
    seq(|ps|, i requires 0 <= i < |ps| => Handed(ps[i]))
  }

  method PushAll(s: Stack, ps: seq<Push>, ghost older: seq<Command>, ghost os: seq<Object>)
    requires Recorded(s, older, os)
    modifies s
    ensures Recorded(s, older, os + HandedAll(ps))
  {
    assert os + HandedAll(ps[..0]) == os;
    for i := 0 to |ps|
      invariant Recorded(s, older, os + HandedAll(ps[..i]))
    {
      PushOne(s, ps[i], older, os + HandedAll(ps[..i]));
      assert HandedAll(ps[..i]) + [Handed(ps[i])] == HandedAll(ps[..i + 1]);
      Associative(os, HandedAll(ps[..i]), [Handed(ps[i])]);
    }
    assert ps[..|ps|] == ps;
  }

  // ----- the setup phase -----

  // What the setup phase creates; the framebuffer's objects, none if the test
  // has no image, are pushed by the wrappers.
  datatype Setup = Setup(
    instanceExtensions: Handle, instance: Handle, alloc: Handle, debug: Option<(Handle, Handle)>,
    queueFamilyProps: Handle, deviceExtensions: Handle, device: Handle, descriptorPool: Handle,
    framebuffer: seq<Push>, queues: Handle, queueFamilies: Handle, pipelineCache: Handle, cmdPools: Handle,
    pools: seq<Handle>, cmdPool: Handle, cmdBuffer: Handle)

  // The objects, in the order they are created.
  function Created(t: Setup): seq<Object> {
    CreatedFirst(t) + CreatedDebug(t) + CreatedOnDevice(t) + HandedAll(t.framebuffer) + CreatedForQueues(t) +
    Pools(t.device, t.pools) + [Object(CommandBuffer, [t.device, t.cmdPool, t.cmdBuffer])]
  }

  function CreatedFirst(t: Setup): seq<Object> {
    [Object(HeapBlock, [t.instanceExtensions]), Object(Instance, [t.instance, t.alloc])]
  }

  function CreatedDebug(t: Setup): seq<Object> {
    if t.debug.Some? then [Object(DebugCallback, [t.debug.value.0, t.instance, t.debug.value.1])] else []
  }

  function CreatedOnDevice(t: Setup): seq<Object> {
    [Object(HeapBlock, [t.queueFamilyProps]), Object(HeapBlock, [t.deviceExtensions]),
     Object(Device, [t.device, 0]), Object(DescriptorPool, [t.device, t.descriptorPool])]
  }

  function CreatedForQueues(t: Setup): seq<Object> {
    [Object(HeapBlock, [t.queues]), Object(HeapBlock, [t.queueFamilies]),
     Object(PipelineCache, [t.device, t.pipelineCache]), Object(HeapBlock, [t.cmdPools])]
  }

  function Pools(device: Handle, pools: seq<Handle>): seq<Object> {
    seq(|pools|, i requires 0 <= i < |pools| => Object(CommandPool, [device, pools[i]]))
  }

  method SetUpInstance(s: Stack, t: Setup, ghost older: seq<Command>)
    requires Recorded(s, older, [])
    modifies s
    ensures Recorded(s, older, CreatedFirst(t))
  {
    var ps := [PushFree(t.instanceExtensions), PushInstance(t.instance, t.alloc)];
    PushAll(s, ps, older, []);
    assert [] + HandedAll(ps) == CreatedFirst(t);
  }

  // The callback that reports on the instance, if there is one.
  method SetUpDebug(s: Stack, t: Setup, ghost older: seq<Command>, ghost os: seq<Object>)
    requires Recorded(s, older, os)
    modifies s
    ensures Recorded(s, older, os + CreatedDebug(t))
  {
    if t.debug.Some? {
      PushOne(s, PushDebugCb(t.debug.value.0, t.instance, t.debug.value.1), older, os);
    } else {
      assert os + [] == os;
    }
  }

  method SetUpDevice(s: Stack, t: Setup, ghost older: seq<Command>, ghost os: seq<Object>)
    requires Recorded(s, older, os)
    modifies s
    ensures Recorded(s, older, os + CreatedOnDevice(t))
  {
    var ps := [PushFree(t.queueFamilyProps), PushFree(t.deviceExtensions), PushDevice(t.device, 0),
               PushDescriptorPool(t.device, t.descriptorPool)];
    PushAll(s, ps, older, os);
    assert HandedAll(ps) == CreatedOnDevice(t);
  }

  method SetUpQueues(s: Stack, t: Setup, ghost older: seq<Command>, ghost os: seq<Object>)
    requires Recorded(s, older, os)
    modifies s
    ensures Recorded(s, older, os + CreatedForQueues(t))
  {
    var ps := [PushFree(t.queues), PushFree(t.queueFamilies), PushPipelineCache(t.device, t.pipelineCache),
               PushFree(t.cmdPools)];
    PushAll(s, ps, older, os);
    assert HandedAll(ps) == CreatedForQueues(t);
  }

  method SetUpPools(s: Stack, t: Setup, ghost older: seq<Command>, ghost os: seq<Object>)
    requires Recorded(s, older, os)
    modifies s
    ensures Recorded(s, older, os + Pools(t.device, t.pools))
  {
    var ps := seq(|t.pools|, i requires 0 <= i < |t.pools| => PushCmdPool(t.device, t.pools[i]));
    PushAll(s, ps, older, os);
    assert HandedAll(ps) == Pools(t.device, t.pools);
  }

  // The setup phase's pushes in their order.
  method SetUp(s: Stack, t: Setup, ghost older: seq<Command>)
    requires Recorded(s, older, [])
    modifies s
    ensures Recorded(s, older, Created(t))
  {
    SetUpInstance(s, t, older);
    ghost var os := CreatedFirst(t);
    SetUpDebug(s, t, older, os);
    os := os + CreatedDebug(t);
    SetUpDevice(s, t, older, os);
    os := os + CreatedOnDevice(t);
    PushAll(s, t.framebuffer, older, os);
    os := os + HandedAll(t.framebuffer);
    SetUpQueues(s, t, older, os);
    os := os + CreatedForQueues(t);
    SetUpPools(s, t, older, os);
    os := os + Pools(t.device, t.pools);
    PushOne(s, PushCmdBuffer(t.device, t.cmdPool, t.cmdBuffer), older, os);
  }

  // A test's thread after its setup, whatever it has pushed since: unwinding
  // releases that first, then everything of the setup, last created first, so
  // the device before the instance.
  method SetUpAndUnwind(s: Stack, t: Setup, later: seq<Push>) returns (released: seq<Object>)
    requires s.Valid() && s.commands == []
    modifies s
    ensures released == Reversed(Created(t) + HandedAll(later))
  {
    assert Recorded(s, [], []);
    SetUp(s, t, []);
    PushAll(s, later, [], Created(t));
    assert OpenRecorded(true);
    assert s.commands[0..] == s.commands && [] + s.commands == s.commands;
    UndoneReverses([], s.commands, Created(t) + HandedAll(later));
    released := s.PopAll(false);
  }

  // The instance and the device on their own.
  lemma InstanceThenDevice(i: Handle, a: Handle, d: Handle, n: Handle)
    ensures Undone([CommandFor(PushInstance(i, a)), CommandFor(PushDevice(d, n))]) ==
      [Object(Device, [d, n]), Object(Instance, [i, a])]
  {
    var cs := [CommandFor(PushInstance(i, a)), CommandFor(PushDevice(d, n))];
    assert cs[..1] == [cs[0]] && [cs[0]][..0] == [];
  }
}
