/**
 * The accelerator runtime as the host programs see it: an opaque library
 * whose calls are observed, in the order they are made, as an append-only
 * log of abstract events.  Nothing of what the device does with a call is
 * modelled; device results enter the host models as parameters.
 */
module Runtime {

  /** A kernel argument: a device buffer (named after its host vector) or an integer scalar. */
  datatype Arg = Buffer(name: string) | Scalar(value: int)

  /** Direction of a buffer migration (0 means from host; CL_MIGRATE_MEM_OBJECT_HOST means to host). */
  datatype Migration = ToDevice | ToHost

  /**
   * Direction of a stream as the kernel sees it: XCL_STREAM_READ_ONLY (the
   * kernel reads what the host writes) or XCL_STREAM_WRITE_ONLY (the kernel
   * writes what the host reads).
   */
  datatype StreamDir = KernelReads | KernelWrites

  datatype Event =
    | TryProgram(device: nat)                  // context, queue and program built for devices[device]
    | CreateKernel(device: nat, kernel: string) // cl::Kernel resolved from the program on devices[device]
    | AllocHost(vector: string, elements: nat)  // a host vector allocated
    | SetArg(kernel: string, index: nat, arg: Arg)
    | Migrate(buffers: seq<string>, toward: Migration)
    | Task(kernel: string)                      // enqueueTask
    | Finish                                    // q.finish(): blocks until the queue drains
    | Verify(vector: string)                    // the host inspects the results held in vector
    | StreamInit                                // xcl::Stream::init
    | CreateStream(kernel: string, dir: StreamDir, flags: nat)
    | StartTransfer(dir: StreamDir)             // a thread starts the transfer on the stream of that direction
    | Join(dir: StreamDir)                      // the main thread joins that transfer thread

  predicate IsInputMigration(e: Event) { e.Migrate? && e.toward == ToDevice }

  predicate IsOutputMigration(e: Event) { e.Migrate? && e.toward == ToHost }

  /** Calls logged in two stretches after a prefix are the prefix followed by both stretches. */
  lemma LogAssoc(a: seq<Event>, b: seq<Event>, c: seq<Event>)
    ensures a + b + c == a + (b + c)
  {
  }

  /** The log of runtime calls made by one run of a host program. */
  class CallLog {
    var events: seq<Event>

    constructor ()
      ensures events == []
    {
      events := [];
    }

    method Record(e: Event)
      modifies this
      ensures events == old(events) + [e]
    {
      events := events + [e];
    }
  }
}
