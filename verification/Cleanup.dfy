// The cleanup stack of a test thread: commands that will release what the test
// has made, last pushed first.
module Cleanup {
  import opened Text

  // Handles and pointers; 0 is VK_NULL_HANDLE or NULL.
  type Handle = nat

  // What one call hands out and another takes back.
  datatype ObjectType =
    | CallbackDue | HeapBlock | CleanupStack | CruImage | CruImageArray | Instance | DebugCallback | Device
    | Buffer | BufferView | CommandBuffer | CommandPool | DescriptorPool | DescriptorSet | SetLayout | DeviceMemory
    | Mapping | Event | Fence | Framebuffer | Image | ImageView | Pipeline | PipelineCache | PipelineLayout
    | QueryPool | RenderPass | Sampler | Semaphore | ShaderModule

  // An object as the releasing call names it: where it belongs, then its handle.
  datatype Object = Object(kind: ObjectType, args: seq<Handle>)

  datatype CommandType =
    | CmdCallback | CmdFree | CmdCleanupStack | CmdCruImage | CmdCruImageArray | CmdInstance | CmdDebugCb
    | CmdDevice | CmdBuffer | CmdBufferView | CmdCommandBuffer | CmdCommandPool | CmdDescriptorPool
    | CmdDescriptorSet | CmdDescriptorSetLayout | CmdDeviceMemory | CmdDeviceMemoryMap | CmdEvent | CmdFence
    | CmdFramebuffer | CmdImage | CmdImageView | CmdPipeline | CmdPipelineCache | CmdPipelineLayout
    | CmdQueryPool | CmdRenderPass | CmdSampler | CmdSemaphore | CmdShaderModule

  // A command as pushed, with its fields in order.
  datatype Command = Command(kind: CommandType, args: seq<Handle>)

  // How many fields a command has.
  function Arity(kind: CommandType): nat {
    match kind
    case CmdFree => 1
    case CmdCleanupStack => 1
    case CmdCruImage => 1
    case CmdCruImageArray => 1
    case CmdDebugCb => 3
    case CmdCommandBuffer => 3
    case CmdDescriptorSet => 3
    case _ => 2
  }

  // What running a popped command releases.
  function Destroys(kind: CommandType): ObjectType {
    match kind
    case CmdCallback => CallbackDue
    case CmdFree => HeapBlock
    case CmdCleanupStack => CleanupStack
    case CmdCruImage => CruImage
    case CmdCruImageArray => CruImageArray
    case CmdInstance => Instance
    case CmdDebugCb => DebugCallback
    case CmdDevice => Device
    case CmdBuffer => Buffer
    case CmdBufferView => BufferView
    case CmdCommandBuffer => CommandBuffer
    case CmdCommandPool => CommandPool
    case CmdDescriptorPool => DescriptorPool
    case CmdDescriptorSet => DescriptorSet
    case CmdDescriptorSetLayout => SetLayout
    case CmdDeviceMemory => DeviceMemory
    case CmdDeviceMemoryMap => Mapping
    case CmdEvent => Event
    case CmdFence => Fence
    case CmdFramebuffer => Framebuffer
    case CmdImage => Image
    case CmdImageView => ImageView
    case CmdPipeline => Pipeline
    case CmdPipelineCache => PipelineCache
    case CmdPipelineLayout => PipelineLayout
    case CmdQueryPool => QueryPool
    case CmdRenderPass => RenderPass
    case CmdSampler => Sampler
    case CmdSemaphore => Semaphore
    case CmdShaderModule => ShaderModule
  }

  function Releases(c: Command): Object {
    Object(Destroys(c.kind), c.args)
  }

  // ----- the stack in memory: each command's fields, then its header -----

  datatype Word = Field(value: Handle) | Header(kind: CommandType)

  function Fields(args: seq<Handle>): (ws: seq<Word>)
    ensures |ws| == |args|
  {
    seq(|args|, i requires 0 <= i < |args| => Field(args[i]))
  }

  function Layout(c: Command): seq<Word> {
    Fields(c.args) + [Header(c.kind)]
  }

  predicate Proper(c: Command) {
    |c.args| == Arity(c.kind)
  }

  function Flat(cs: seq<Command>): seq<Word> {
    if cs == [] then [] else Flat(cs[..|cs| - 1]) + Layout(cs[|cs| - 1])
  }

  function Undone(cs: seq<Command>): (os: seq<Object>)
    ensures |os| == |cs|
  {
    if cs == [] then [] else [Releases(cs[|cs| - 1])] + Undone(cs[..|cs| - 1])
  }

  class Stack {
    var words: seq<Word>
    ghost var commands: seq<Command>

    ghost predicate Valid()
      reads this
    {
      words == Flat(commands) && forall c :: c in commands ==> Proper(c)
    }

    constructor ()
      ensures Valid() && commands == []
    {
      words, commands := [], [];
    }

    // Store the fields one by one, then the header.
    method Push(kind: CommandType, args: seq<Handle>)
      requires Valid() && Proper(Command(kind, args))
      modifies this
      ensures Valid() && commands == old(commands) + [Command(kind, args)]
    {
      ghost var before := words;
      for i := 0 to |args|
        invariant words == before + Fields(args[..i]) && commands == old(commands)
      {
        Associative(before, Fields(args[..i]), [Field(args[i])]);
        words := words + [Field(args[i])];
      }
      assert args[..|args|] == args;
      Associative(before, Fields(args), [Header(kind)]);
      words := words + [Header(kind)];
      commands := commands + [Command(kind, args)];
    }

    // Read the header, then as many fields as it calls for, and run the command
    // unless the pop is a no-op.
    method Pop(noop: bool) returns (popped: bool, released: Option<Object>)
      requires Valid()
      modifies this
      ensures Valid() && (popped <==> old(commands) != [])
      ensures !popped ==> released == None && commands == []
      ensures popped ==>
        commands == old(commands)[..|old(commands)| - 1] &&
        released == if noop then None else Some(Releases(old(commands)[|old(commands)| - 1]))
    {
      if words == [] {
        return false, None;
      }
      assert commands != [];
      ghost var rest, c := commands[..|commands| - 1], commands[|commands| - 1];
      assert c in commands && words == Flat(rest) + Layout(c);
      var n := |words| - 1;
      var kind := words[n].kind;
      var size := Arity(kind);
      var fields := words[n - size..n];
      assert fields == Fields(c.args);
      var args := seq(size, i requires 0 <= i < size => fields[i].value);
      assert args == c.args;
      words := words[..n - size];
      commands := rest;
      return true, if noop then None else Some(Object(Destroys(kind), args));
    }

    method PopAll(noop: bool) returns (released: seq<Object>)
      requires Valid()
      modifies this
      ensures Valid() && commands == [] && released == if noop then [] else Undone(old(commands))
    {
      released := [];
      var popped := true;
      while popped
        invariant Valid() && (popped || commands == [])
        invariant released + (if noop then [] else Undone(commands)) == if noop then [] else Undone(old(commands))
        decreases |commands| + if popped then 1 else 0
      {
        var next;
        popped, next := Pop(noop);
        if next.Some? {
          Associative(released, [next.value], Undone(commands));
          released := released + [next.value];
        }
      }
    }
  }
}
