# lg-npu: a verified model

lg-npu is an INT8 neural accelerator: SystemVerilog control, memory and DMA logic, a C runtime and Linux
driver, and bit-exact reference kernels in C++, C and Python. This project models it in Dafny and proves what
its parts promise. `dafny verify dfyconfig.toml` checks everything.

Three styles are used, following the source:

* Clocked logic is a datatype of registers and a `...Next` function giving the registers after one clock edge,
  so that statements over runs can be made. Beside it stands a class with the registers as fields and a `Tick`
  method proved to do exactly what the function says.
* C, C++ and Python loops are methods with loop invariants, proved against a mathematical description of the
  result; lemmas then say what that description means.
* Protocols between several parties are relations between a state, an action and a next state. Safety is
  stated over every history from reset.

Files:

| file | contents |
|---|---|
| `Common.dfy` | fixed-width integers, C division, finite sums and concatenations |
| `Fifo.dfy`, `Handshake.dfy`, `Arbiter.dfy` | handshake primitives: bounded queues, chains of them, round-robin arbitration |
| `Command.dfy` | descriptor builders, decoder and per-opcode views |
| `WeightPort.dfy`, `Core.dfy` | weight/bias port sharing; scheduler, dispatcher and backend selection |
| `Pipeline.dfy` | register block, fetch, decode, queue, core and interrupt latch clocked together; the ledger |
| `Progress.dfy` | how soon a descriptor retires when backends keep to time limits |
| `Driver.dfy` | the kernel driver's submit, DMA and interrupt paths interleaved with the pipeline |
| `DriverProgress.dfy` | that the holder of the driver's lock can always go on to its return |
| `Dma.dfy` | DMA engines and frontend over external and local memory |
| `DriverDma.dfy` | the driver's DMA call on top of those engines |
| `Sram.dfy`, `ActBuffer.dfy` | the tiled SRAM against a flat memory; the activation buffer on top |
| `Isqrt.dfy`, `LayerNorm.dfy`, `Softmax.dfy` | integer square root and the two row normalizations |
| `Windows.dfy`, `Conv.dfy`, `Pool.dfy` | output sizes, the bench's matrix product, convolution and pooling |
| `OtherConvs.dfy` | the C test's and the Python convolution, against the bench's |
| `Layout.dfy` | tensor descriptor checks and the NCHW to NHWC copy |

A backend is an abstract machine: it may take a command when idle, is busy from the next cycle, reports done
once and strictly later, and uses memory only while a command is running. Its done and busy may fall in the
same cycle or one after the other.

Four results say where the code and an obvious reading of it part:

* `Driver.DriverPromiseExact`: the driver's promise (a submission returns 0 only after its own descriptor has
  retired, and a free lock means an empty pipeline) holds on every history exactly when the interrupt handler
  is never called for another device on the line, never reads the interrupt status in the one cycle between a
  clear being registered and being applied, and never obtains `irq_lock` only after the line that dispatched it
  has dropped again, and the thread never polls the DMA status in the one cycle between a start being registered
  and being applied. The handler is registered with `IRQF_SHARED`.
* `Layout.ConvertToNhwc` with `Layout.ValidButTooWide`: the copy's inner subscript is computed in `int`, and the
  call has a defined meaning exactly when the last one is at most 2^31 - 1; the validator accepts descriptors
  beyond that.
* `Command.DeriveOutDimExact` and `Command.DeriveOutDimMisfitExact`: when the derived output size is the number
  of windows that fit. If the filter fits, exactly when that number has 16 bits. If it does not fit, exactly when
  the stride divides 2^16 and the filter overhangs the padded input by at most one stride.
* `WeightPort.RouterAssertionExact`: the router's comment (`rtl/memory/npu_buffer_router.sv:69-71`) holds that
  weight and bias requests never coincide, while its logic is written for the case that they do. Its simulation
  assertion fails exactly in a collision that an odd number of collisions in a row has led up to; no request is
  lost there either.

`docs/spec/command_format.md` says that any non-zero `vec_op` is a multiplication; the hardware view keeps bit 0
only. The model follows the view (`Command.VecOpDocumentedReading`).

## Model

| member | source | states |
|---|---|---|
| Fifo.FifoRefinesQueue | rtl/common/fifo.sv:41-62 | over one clock edge the wrap-bit ring buffer does what a bounded queue does: pop the head if asked, then append if there was room; `rd_data` is the head. For every depth |
| Fifo.FullEmptyExact | rtl/common/fifo.sv:41-46 | `full` exactly when the queue holds DEPTH words, `empty` exactly when none |
| Fifo.SlotIsLowBits | rtl/common/fifo.sv:36-46 | the index part of a pointer is the pointer modulo the depth |
| Fifo.Queue.Tick | rtl/common/fifo.sv:41-62 | the clocked FIFO: its contents follow the queue, and what it shows on its ports |
| Handshake.StageRefinesQueue | rtl/common/skid_buffer.sv:31-64 | FIFO, skid buffer and pipeline register are queues of capacity DEPTH, 2 and 1: what leaves is the head, what is accepted goes to the tail, ready and valid mean what they say |
| Handshake.StalledOutputStable | rtl/common/skid_buffer.sv:31-64 | a stalled stage keeps valid high and its data unchanged |
| Handshake.ChainConserves | rtl/common/pipeline_reg.sv:26-44 | any chain of such stages over any run: words emitted, then words held, are the words held before, then the words accepted, in order |
| Handshake.EmittedIsPrefix | rtl/common/pipeline_reg.sv:26-44 | from an empty chain the output is a prefix of the accepted input |
| Handshake.ChainStalledOutputStable | rtl/common/pipeline_reg.sv:26-44 | a stalled chain keeps its output |
| Handshake.SkidBuffer.Tick | rtl/common/skid_buffer.sv:31-64 | the clocked skid buffer holds exactly what it accepted and has not emitted |
| Handshake.PipelineReg.Tick | rtl/common/pipeline_reg.sv:26-44 | the clocked register stage likewise |
| Arbiter.Search | rtl/common/arbiter_rr.sv:35-45 | the search loop grants the requester nearest after the last grant, and nobody else |
| Arbiter.OneHotExactly | rtl/common/arbiter_rr.sv:35-45 | the grant is one-hot exactly when some request is up, goes to a requester, and is empty otherwise |
| Arbiter.NoneBefore | rtl/common/arbiter_rr.sv:35-45 | going up from the last grant and on from zero, no requester lies before the winner |
| Arbiter.WaitingApproaches | rtl/common/arbiter_rr.sv:23-45 | while a requester waits, the rotation distance to it strictly falls each cycle |
| Arbiter.HeldIsGranted | rtl/common/arbiter_rr.sv:23-45 | a held request is granted within its rotation distance plus one cycles |
| Arbiter.GrantedWithinN | rtl/common/arbiter_rr.sv:23-45 | nobody waits longer than NUM_REQ cycles, for any NUM_REQ |
| Arbiter.RoundRobin.Tick | rtl/common/arbiter_rr.sv:23-45 | the clocked arbiter: the search's grant, and the register follows it |
| WeightPort.GrantedWithinTwoCycles | rtl/memory/npu_buffer_router.sv:84-104 | in every run with requests held until granted, each weight or bias request is granted in its own cycle or the next |
| WeightPort.AnsweredExactlyOnce | rtl/memory/npu_buffer_router.sv:134-149 | each grant is answered in the next cycle, on the requester's own port only, with the byte that the low twelve bits of its address select; nothing answers without a grant |
| WeightPort.LowBits | rtl/memory/npu_buffer_router.sv:86-90 | an address inside the buffer is its own offset, and addresses a buffer apart share one |
| WeightPort.ParkedIsHeld | rtl/memory/npu_buffer_router.sv:92-104 | a parked bias read is always the one its requester still asks for |
| WeightPort.ParkedExactly | rtl/memory/npu_buffer_router.sv:92-104 | a bias read is parked exactly after an odd number of collisions in a row |
| WeightPort.RouterAssertionExact | rtl/memory/npu_buffer_router.sv:106-111 | the simulation assertion fails in a cycle exactly when both sides ask then and an odd number of cycles in a row before it saw both ask |
| WeightPort.RouterAssertionFails | rtl/memory/npu_buffer_router.sv:106-111 | a legal two-cycle run that fails it |
| WeightPort.BiasArbiter.Tick | rtl/memory/npu_buffer_router.sv:84-149 | the clocked arbiter's grants and registers, with the byte it reads and the address it parks in numbers |
| Core.CoreStep | rtl/core/npu_core.sv:343-359 | under the backend contract every cycle keeps: only a waiting scheduler has a running backend, it is the selected one, no read is parked when a command is on offer |
| Core.CoreInvAt | rtl/core/npu_core.sv:343-434 | hence in every reachable state |
| Core.ConvAndGemmDispatched | rtl/core/npu_dispatch.sv:46-81 | a built convolution goes to backend 0 and a built GEMM to backend 1, each with its own view holding every parameter given |
| Core.SoftmaxAndVecDispatched | rtl/core/npu_dispatch.sv:46-81 | likewise softmax to backend 2 and vector operations to backend 3 |
| Core.LnormAndPoolDispatched | rtl/core/npu_dispatch.sv:46-81 | likewise layer norm to backend 4 and pooling to backend 5 |
| Core.OneBusyBackend | rtl/core/npu_core.sv:433-434 | at most one backend is busy, and `be_sel_r` names it |
| Core.StatusExact | rtl/core/npu_core.sv:433-434 | done and busy in terms of the scheduler's state and the selected backend |
| Core.GrantsReachRequester | rtl/core/npu_core.sv:339-431 | a memory request comes from the selected backend, the port mux passes it on, and its grant goes back to it |
| Core.ActGrantExact | rtl/core/npu_core.sv:343-431 | a backend sees an activation grant exactly when it asks |
| Core.SelectorHoldsForReads | rtl/core/npu_core.sv:343-359 | the selector does not move under a read that is answered or parked, including reads in flight at done |
| Core.ReadsAnsweredToRequester | rtl/core/npu_core.sv:339-434 | over any run a backend is answered in the next cycle exactly when it asked and was not made to wait, on the port it used, with the byte the low bits of its address select, activations included; only a collision of weight and bias reads, or a read that meets a parked one, waits |
| Core.ParkedByRequester | rtl/memory/npu_buffer_router.sv:92-104 | a read is parked exactly when the selected backend asks on both ports with none parked yet, under its own address, and for one cycle |
| Core.ParkedReadAnswered | rtl/memory/npu_buffer_router.sv:134-149 | a parked bias read is answered in the cycle after the next, to the backend that made it and no other, with its byte; a weight read that met it and is still up follows in the next cycle |
| Core.Scheduler.Tick | rtl/core/npu_scheduler.sv:36-63 | the clocked issue machine follows the step used by the core, and keeps one command at a time: commands popped are the commands issued, in order, but for the one on offer; commands issued are finished but for the one waited for; it takes a new one only when all are finished |
| Core.Selector.Tick | rtl/core/npu_core.sv:343-359 | the selector register follows the accepting backend |
| Command.ConvRoundTrip | sw/runtime/command_builder.c:37-84 | decoding a built convolution gives back every parameter, shift mod 32, mode mod 4, and the derived output sizes |
| Command.GemmRoundTrip | sw/runtime/command_builder.c:86-107 | likewise through the GEMM view |
| Command.SoftmaxRoundTrip | sw/runtime/command_builder.c:109-125 | likewise through the softmax view |
| Command.VecRoundTrip | sw/runtime/command_builder.c:127-146 | likewise through the vector view, `vec_op` cut to bit 0 |
| Command.LnormRoundTrip | sw/runtime/command_builder.c:148-165 | likewise through the layer-norm view |
| Command.PoolRoundTrip | sw/runtime/command_builder.c:167-210 | likewise through the pooling view, mode cut to bit 0 |
| Command.VecOpDocumentedReading | include/pkg/npu_cmd_pkg.sv:157-169 | the documented reading of `vec_op` and the view agree exactly on zero and odd values |
| Command.ConvPackingInjective | sw/runtime/command_builder.c:37-84 | in-range convolution parameters are determined by their words, output sizes given or left to be derived |
| Command.GemmPackingInjective | sw/runtime/command_builder.c:86-107 | likewise for GEMM |
| Command.SoftmaxPackingInjective | sw/runtime/command_builder.c:109-125 | likewise for softmax |
| Command.VecPackingInjective | sw/runtime/command_builder.c:127-146 | likewise for vector operations |
| Command.LnormPackingInjective | sw/runtime/command_builder.c:148-165 | likewise for layer norm |
| Command.PoolPackingInjective | sw/runtime/command_builder.c:167-210 | likewise for pooling, output sizes given or left to be derived |
| Command.OpcodeSeparates | rtl/control/npu_cmd_decode.sv:94-100 | descriptors of different operations differ, whatever the parameters |
| Command.ReservedOpcodes | rtl/control/npu_cmd_decode.sv:94-100 | exactly the codes 1 to 6 of the low four bits of word 0 are known |
| Command.DecodeEnds | rtl/control/npu_cmd_decode.sv:100-119 | of any descriptor, which bits of words 0 and 15 become opcode, mode, shift and pooling mode |
| Command.DecodeHalves | rtl/control/npu_cmd_decode.sv:101-117 | and that the low halves of words 1 to 14 and the high halves of words 13 and 14 become the other fields |
| Command.GivenSizesDecoded | sw/runtime/command_builder.c:18-35 | a size the caller gives is the size the hardware sees |
| Command.WindowCountExact | sw/runtime/command_builder.c:31-34 | the window count is the number of windows that fit the padded input |
| Command.DeriveOutDimBranches | sw/runtime/command_builder.c:18-35 | a size given wins over everything else, and a stride of zero derives zero |
| Command.DeriveOutDimExact | sw/runtime/command_builder.c:18-35 | where the filter fits, the derived size is that count exactly when it is a 16-bit number |
| Command.DeriveOutDimMisfitExact | sw/runtime/command_builder.c:18-35 | where it does not fit no window does, and the derived size is zero exactly when the stride divides 2^16 and the overhang is at most one stride |
| Command.DeriveOutDimOverflows | sw/runtime/command_builder.c:18-35 | a 65535-wide input padded by one has 65537 one-wide windows and derives 1 |
| Command.DeriveOutDimOnMisfit | sw/runtime/command_builder.c:18-35 | a 3-wide filter on a 1-wide input derives 65535 |
| Command.BuildConv | sw/runtime/command_builder.c:37-84 | fills all sixteen words, or returns -1 on a null argument and leaves them alone |
| Command.BuildGemm | sw/runtime/command_builder.c:86-107 | likewise |
| Command.BuildSoftmax | sw/runtime/command_builder.c:109-125 | likewise |
| Command.BuildVec | sw/runtime/command_builder.c:127-146 | likewise |
| Command.BuildLnorm | sw/runtime/command_builder.c:148-165 | likewise |
| Command.BuildPool | sw/runtime/command_builder.c:167-210 | likewise |
| Pipeline.PipelineLedger | rtl/core/npu_shell.sv:163-257 | over every run from reset: accepted doorbells = rejections + completions + what sits in fetch, decode, queue and scheduler, as counts and in order |
| Pipeline.ExactlyOnceInOrder | rtl/core/npu_shell.sv:163-257 | over every run: the commands given to backends are a prefix of the known ones accepted, in doorbell order; once drained they are all of them, all completed, and every other descriptor was rejected once |
| Pipeline.IssuedToItsBackend | rtl/core/npu_dispatch.sv:53-81 | the command issued is accepted by the backend its opcode names, opcodes 1 to 6 by backends 0 to 5, and by no other; the completion comes from that backend |
| Progress.RetiresWithin | rtl/core/npu_shell.sv:163-257 | over every run in which backends take a command on offer within `take` cycles and finish it within `run`: everything accepted by a cycle has retired 7 (take + run + 1) + 34 cycles later, whatever is accepted meanwhile |
| Progress.DrainsWithin | rtl/core/npu_shell.sv:163-257 | so a pipeline that accepts nothing for that long is empty |
| Progress.LeftFalls | rtl/core/npu_scheduler.sv:36-63 | while any of the first n descriptors has not retired, every cycle lowers the bound on what they still need |
| Progress.FrontStep | rtl/control/npu_cmd_fetch.sv:55-88 | fetch and decode hold the newest accepted descriptors, in order |
| Pipeline.FlowStep | rtl/control/npu_cmd_fetch.sv:55-88 | in one cycle nothing is lost, duplicated or reordered between the doorbell and a backend |
| Pipeline.PipeInvStep | rtl/control/npu_cmd_decode.sv:80-126 | the timing invariant: decode has drained before the next fetch delivers a word |
| Pipeline.BalanceStepExact | rtl/control/npu_cmd_decode.sv:80-88 | without any timing assumption, a descriptor drops out of the count exactly when its last word arrives while decode is occupied |
| Pipeline.FetchDataStep | rtl/control/npu_cmd_fetch.sv:55-88 | the words collected so far are the window's, and all sixteen are when the descriptor is done |
| Pipeline.LedgerStep | rtl/core/npu_scheduler.sv:36-63 | one cycle keeps the ledger |
| Pipeline.CmdFetch.Tick | rtl/control/npu_cmd_fetch.sv:55-88 | the clocked fetch machine |
| Pipeline.CmdDecode.Tick | rtl/control/npu_cmd_decode.sv:42-126 | the clocked decoder |
| Pipeline.IrqCtrl.Tick | rtl/control/npu_irq_ctrl.sv:25-37 | the pending latch: clear wins over set |
| Pipeline.RegBlock.Tick | rtl/control/npu_reg_block.sv:103-164 | doorbell, clear and DMA pulses, and the command window |
| Pipeline.WindowRepeats | rtl/control/npu_reg_block.sv:141-159 | which word of the command window an address in it selects |
| Driver.DriverPromiseExact | sw/driver/npu_queue.c:14-54 | the promise holds on every interleaving exactly when the line is not shared, neither interrupt nor DMA status is read while stale, and a dispatched handler gets the lock while the line is still up |
| Driver.QuietIsSafe | sw/driver/npu_irq.c:15-34 | under those conditions every history of thread, handler and hardware is safe throughout |
| Driver.HistoryInv | sw/driver/npu_dma.c:15-54 | the invariant behind it at every program point of submission, DMA transfer and handler, its dispatch and its lock being separate steps |
| Driver.ViewRefines | rtl/core/npu_shell.sv:163-257 | one cycle of the whole pipeline is one step of the driver's view of it |
| Driver.SharedLineBreaks | sw/driver/npu_irq.c:36-63 | on a shared line a DMA interrupt can be consumed so that a later submission returns early |
| Driver.StaleStatusBreaks | sw/driver/npu_irq.c:15-34 | a second pass of the handler that still sees a cleared interrupt completes the next submission early |
| Driver.LateLockBreaks | sw/driver/npu_irq.c:15-34 | a handler dispatched twice that gets the lock only after the interrupt has been cleared and disabled can consume the interrupt of a following DMA transfer and wake the next submission early |
| Driver.EarlyPollBreaks | sw/driver/npu_dma.c:15-54 | a DMA poll in the cycle in which its start is registered ends the call and frees the lock while the transfer runs |
| Driver.InvIsSafe | sw/driver/npu_queue.c:36-54 | at every program point: a submission about to return 0 is the last one accepted and everything accepted has retired once; a free lock means an empty pipeline with no interrupt left pending |
| DriverProgress.HolderCanReturn | sw/driver/npu_queue.c:14-54 | from every world of every quiet history the call that holds the lock can go on to its return, a submission with its own result |
| DriverProgress.Advances | sw/driver/npu_irq.c:15-34 | at every program point some step of thread, handler or hardware brings that return nearer |
| DriverProgress.HardwareFalls | rtl/core/npu_shell.sv:163-257 | with ready backends the one outstanding descriptor retires in a falling number of cycles |
| Dma.TransferRuns | rtl/memory/npu_dma_reader.sv:48-150 | over every run with arbitrary grant and response delays a transfer is at every cycle exactly as far as its counter says, memories included |
| Dma.FinishedMeansMoved | rtl/memory/npu_dma_frontend.sv:55-124 | when neither engine is busy any more, max(1, len) elements have been moved and nothing else changed |
| Dma.CompletesExactly | rtl/memory/npu_dma_frontend.sv:55-124 | over every run: with fewer than 3 x max(1, len) cycles granted or answered the transfer is still busy and lacks exactly the difference; with the last of them it is over |
| Dma.FinishesExactly | rtl/memory/npu_buffer_router.sv:53-59 | with memories that always grant and answer, a transfer is over in 3 x max(1, len) cycles exactly when every one of its local addresses lies in a buffer |
| Dma.ReadTransfer | rtl/memory/npu_dma_reader.sv:48-150 | over every run: once those cycles are served the whole block is in the buffer, the rest of both memories as it was, and neither engine busy |
| Dma.WriteTransfer | rtl/memory/npu_dma_writer.sv:48-150 | likewise towards external memory |
| Dma.StepKeeps | rtl/memory/npu_dma_writer.sv:48-150 | one cycle keeps a transfer on track; its single done cycle is its last |
| Dma.ServedAdvances | rtl/memory/npu_dma_writer.sv:48-150 | a granted or answered cycle brings a transfer one of 3 x max(1, len) steps nearer its end, any other cycle changes nothing |
| Dma.ReadMoves | rtl/memory/npu_dma_reader.sv:77-90 | inside one buffer, local cell loc + i receives the low byte (whole word for partial sums) of external word ext + i |
| Dma.CellExact | rtl/memory/npu_buffer_router.sv:53-67 | the windows and the repeated offsets inside them, in numbers, for every address |
| Dma.LocalMeaning | rtl/memory/npu_buffer_router.sv:195-201 | byte buffers keep a word's low byte, partial sums the whole word; a load shows the cell zero-extended |
| Dma.ReadFrame | rtl/memory/npu_buffer_router.sv:53-67 | and no other cell changes |
| Dma.WriteMoves | rtl/memory/npu_dma_writer.sv:77-90 | external word ext + i receives local element i zero-extended, every other word is untouched |
| Dma.RoundTrip | rtl/memory/npu_dma_frontend.sv:55-124 | reading a block in and writing it out reproduces it, cut to what the cells keep |
| Dma.StuckOutsideBuffers | rtl/memory/npu_buffer_router.sv:55-59 | a transfer with an element below 0x10000 never gets past it |
| Dma.FrontendIsDmaPhase | rtl/memory/npu_dma_frontend.sv:100-124 | with no start while a transfer is in progress at most one engine is active, and busy and done behave as the pipeline model assumes |
| DriverDma.FrontendInStep | rtl/memory/npu_dma_frontend.sv:100-124 | clocked together with the driver, in every quiet history the frontend is where the pipeline model takes it to be, one engine at most is active, and the driver never starts it before it is at rest |
| DriverDma.CallMovesBlock | sw/driver/npu_dma.c:15-54 | in every quiet history a DMA call about to return 0 has moved the block its arguments describe, cut to the register widths, and nothing else, for any grant and response delays |
| DriverDma.CallStep | sw/driver/npu_dma.c:15-54 | the invariant behind it at every program point of the call |
| Dma.WalkIsModular | rtl/memory/npu_dma_reader.sv:82-90 | the stepped address registers are start plus position modulo their width |
| Dma.DmaReader.Tick | rtl/memory/npu_dma_reader.sv:48-150 | the clocked reader |
| Dma.DmaWriter.Tick | rtl/memory/npu_dma_writer.sv:48-150 | the clocked writer |
| Sram.SplitBijective | rtl/platform/mem_macro_1rw1r_wrap.sv:102-107 | bank, row and lane are a bijection with the addresses of any number of banks |
| Sram.StepRefines | rtl/platform/mem_macro_1rw1r_wrap.sv:81-149 | one cycle of the tiled memory is one cycle of the flat one, stored bytes and trusted outputs |
| Sram.RunRefines | rtl/platform/mem_macro_1rw1r_wrap.sv:81-149 | hence over every run of port activity |
| Sram.ReadsMatch | rtl/platform/mem_macro_1rw1r_wrap.sv:148-149 | after a read, and until the port is used again, both show the byte stored when it was read, for port B unless the row was being written |
| Sram.PortATrustExact | rtl/platform/mem_macro_1rw1r_wrap.sv:148-149 | port A's output agrees for every macro behaviour exactly when its operation was no write |
| Sram.PortBTrustExact | rtl/platform/mem_macro_1rw1r_wrap.sv:148-149 | port B's read agrees for every macro behaviour exactly when it met no write to its row |
| Sram.TiledSram.Tick | rtl/platform/mem_macro_1rw1r_wrap.sv:81-149 | the clocked tiled memory, bank by bank |
| Sram.FlatSram.Tick | rtl/platform/mem_macro_1rw1r_wrap.sv:41-61 | the clocked flat memory |
| ActBuffer.GrantedIsAnswered | rtl/memory/npu_act_buffer.sv:50-87 | every granted read and nothing else is answered in the next cycle, with the byte stored when it was granted; the granted write, backend first, is the only change |
| ActBuffer.ValidResponsesMatch | rtl/memory/npu_act_buffer.sv:50-87 | on the tiled memory every valid response carries the same byte, unless a backend read met a write to its row |
| ActBuffer.Buffer.Tick | rtl/memory/npu_act_buffer.sv:50-87 | the clocked buffer |
| Isqrt.IsqrtHw | tb/integration/npu_tb.h:244-263 | for every 32-bit n the result r satisfies r^2 <= n < (r + 1)^2 |
| Isqrt.RootRound | tb/integration/npu_tb.h:248-261 | the loop invariant, rem = (n >> 2i) - result^2 <= 2 result, survives a round and no register overflows |
| Isqrt.RootUnique | tb/integration/npu_tb.h:244-263 | there is only one such r |
| LayerNorm.MeanWithin | tb/integration/npu_tb.h:279-285 | the truncated mean of up to 65535 elements lies between any bounds of the row |
| LayerNorm.VarSumFits | tb/integration/npu_tb.h:287-294 | no prefix of the squared deviations of up to 65535 elements reaches 2^32 |
| LayerNorm.DivisorRange | tb/integration/npu_tb.h:296-298 | in rows of up to 65535 elements the divisor lies in 1..255, so the zero guard never acts |
| LayerNorm.NormalizeExact | tb/integration/npu_tb.h:303-328 | the widened, saturated, unsigned path computes the truncated quotient of the signed shifted deviation, clamped to INT8 |
| LayerNorm.NormMonotone | tb/integration/npu_tb.h:303-328 | within such a row the output keeps the order of the inputs |
| LayerNorm.NormSign | tb/integration/npu_tb.h:303-328 | in such a row an output has the sign of its deviation or is zero, and exactly when it is zero |
| LayerNorm.ConstantRowIsZero | tb/integration/npu_tb.h:268-332 | a constant row of up to 65535 elements gives zeros |
| LayerNorm.RowMean | tb/integration/npu_tb.h:279-285 | pass 1 in a wrapping 32-bit register computes the mean, rows of any length |
| LayerNorm.RowDivisor | tb/integration/npu_tb.h:287-298 | pass 2 computes the root of the variance plus one |
| LayerNorm.NormRowsAt | tb/integration/npu_tb.h:268-332 | where each output sits |
| LayerNorm.RefLnorm | tb/integration/npu_tb.h:268-332 | the whole call, rows of any length: every row normalized by itself, in registers that wrap |
| LayerNorm.MeanMeaning | tb/integration/npu_tb.h:279-285 | in rows of up to 65535 elements the mean is the sum of the elements divided by their number toward zero |
| LayerNorm.DivisorMeaning | tb/integration/npu_tb.h:287-298 | the divisor r satisfies r^2 <= V + 1 < (r + 1)^2, V being the floor of the mean of the squared deviations, written from the elements |
| LayerNorm.NormMeaning | tb/integration/npu_tb.h:303-328 | an output is the deviation times 2^shift, divided by the divisor toward zero, held between -128 and 127 |
| Softmax.ApproxAntitone | tb/integration/npu_tb.h:539-553 | the two-table exponential never increases with the distance from the maximum |
| Softmax.ApproxRange | tb/integration/npu_tb.h:539-553 | it lies in 22..65534 and is 65534 at zero |
| Softmax.TotalRange | tb/integration/npu_tb.h:571-578 | a row's sum of weights is at least 65534 and at least each weight, and below 2^32 in rows of up to 65535 elements |
| Softmax.ShareRange | tb/integration/npu_tb.h:579-589 | the share of an element is the floor of its part of 127 and lies in 0..127, so the clamp never acts |
| Softmax.OutputIsShare | tb/integration/npu_tb.h:571-589 | in a row of up to 65535 elements the 32-bit sum is exact and positive, and what is written is the share |
| Softmax.SoftmaxMeaning | tb/integration/npu_tb.h:558-592 | an output in numbers: the floor of 127 times the element's weight over the sum of weights, the weights being high words of table products at the distances from the maximum |
| Softmax.RowTotal | tb/integration/npu_tb.h:579-589 | a row's shares add up to at most 127 and more than 127 - N |
| Softmax.ShareMonotone | tb/integration/npu_tb.h:558-592 | a larger input never gets a smaller share |
| Softmax.ShiftInvariant | tb/integration/npu_tb.h:558-592 | adding a constant that keeps the row in range changes no share |
| Softmax.ConstantRow | tb/integration/npu_tb.h:558-592 | a constant row gives shares of 127 / N |
| Softmax.ExpTable | tb/integration/npu_tb.h:539-553 | the source's table meets what the row lemmas ask of a table |
| Softmax.ApproxMeaning | tb/integration/npu_tb.h:550-552 | the approximation is the high word of the product of the two selected entries |
| Softmax.FirstEntryIsNearest | tb/integration/npu_tb.h:541-543 | one entry is 65535/e to the nearest integer, by the exponential series |
| Softmax.CoarseStep | tb/integration/npu_tb.h:541-543 | the coarse table's entries are its powers up to rounding |
| Softmax.FineStep | tb/integration/npu_tb.h:544-549 | thirty-two equal steps of the fine table make one of the coarse table, up to rounding at each |
| Softmax.RowMax | tb/integration/npu_tb.h:567-570 | pass 1 finds the maximum |
| Softmax.RowSum | tb/integration/npu_tb.h:571-578 | pass 2 computes the sum register of a row of any length, through byte subtraction and 32-bit wrap-around |
| Softmax.SoftmaxOneRow | tb/integration/npu_tb.h:566-589 | the three passes write every element's output, rows of any length |
| Softmax.SoftmaxRowsAt | tb/integration/npu_tb.h:558-592 | where each output sits |
| Softmax.RefSoftmax | tb/integration/npu_tb.h:558-592 | the whole call, for every row length, provided no row's 32-bit sum is the zero it would divide by |
| Softmax.ShortRowsDivide | tb/integration/npu_tb.h:586-586 | rows of up to 65535 elements never divide by zero |
| Windows.OutDimIsDerived | sw/runtime/command_builder.c:18-35 | the kernels' output size is the one the command builder derives |
| Windows.OutDimExact | tb/integration/npu_tb.h:485-486 | the size counts the windows that fit, and the first one if less than a stride is missing, where division toward zero gives one |
| Windows.UnpaddedReadsInside | tb/integration/npu_tb.h:485-503 | without padding every read of every window is inside the input, and one more window would not fit |
| Common.Wrap32Unique | tb/integration/npu_tb.h:441-447 | the value a 32-bit accumulator keeps is the only 32-bit number that differs from the exact sum by a multiple of 2^32 |
| Common.ShiftRightFloor | tb/integration/npu_tb.h:457-458 | the quantization shift is the floor of the quotient by 2^n |
| Common.TruncDivExact | tb/integration/npu_tb.h:279-285 | C's division rounds toward zero |
| Conv.RefGemm | tb/integration/npu_tb.h:426-465 | the loops compute the matrix product with bias, activation, shift and clamp, in a wrapping accumulator |
| Conv.GemmCell | tb/integration/npu_tb.h:426-465 | where each output sits |
| Conv.FinishMeaning | tb/integration/npu_tb.h:448-461 | activation, shift and clamp in numbers: rectified or floored eighth, floor of the quotient by 2^shift, held between -128 and 127 |
| Conv.GemmMeaning | tb/integration/npu_tb.h:426-465 | every output in numbers, from the elements of a, b and the bias at their explicit indices |
| Conv.RefConv | tb/integration/npu_tb.h:468-534 | the six loops compute the zero-padded convolution, one value for every output position |
| Conv.ConvCell | tb/integration/npu_tb.h:468-534 | where each output sits |
| Conv.ConvMeaning | tb/integration/npu_tb.h:468-534 | every output in numbers, from the activations and weights at their explicit indices and zero outside the input |
| Conv.OutputSizes | tb/integration/npu_tb.h:485-486 | which windows of r lines and s columns have an output |
| Conv.ConvIsGemm | tb/integration/npu_tb.h:426-534 | convolution is the matrix product over the patch matrix with transposed weights, for every shape, stride, padding, shift and activation, wrap-around included |
| Conv.Im2colValid | tb/integration/npu_tb.h:426-534 | that product is a legal call |
| Conv.GemmAccFits | tb/integration/npu_tb.h:441-447 | up to 131071 products the accumulator never leaves 32 bits |
| Conv.GemmAccOverflows | tb/integration/npu_tb.h:441-447 | with one more it can |
| Conv.ConvAccFits | tb/integration/npu_tb.h:495-511 | the same bound at every point of the convolution's loops |
| Conv.PixelInBounds | tb/integration/npu_tb.h:502-506 | every guarded activation read is in bounds |
| Conv.WeightInBounds | tb/integration/npu_tb.h:507-507 | every weight read is in bounds |
| OtherConvs.ConvInt8Acc | sw/tests/integration/test_integration.c:58-78 | the independent convolution's loops, bias first and skipping what lies outside |
| OtherConvs.RefConvInt8 | sw/tests/integration/test_integration.c:31-98 | its output loops fill the caller's buffer with one value for every output position, sizes cut to 16 bits, and leave the rest of it alone |
| OtherConvs.LateMeaning | sw/tests/integration/test_integration.c:52-94 | every place of the buffer in numbers, as for the bench, with its own order of clamp and activation |
| OtherConvs.SkippingIsPadding | sw/tests/integration/test_integration.c:67-68 | skipping a tap adds what multiplying it by zero adds |
| OtherConvs.FinishAgreesExactly | sw/tests/integration/test_integration.c:80-93 | activating before or after quantizing agrees always for NONE and RELU, and for Leaky ReLU exactly on the values listed |
| OtherConvs.ConvolutionsAgree | sw/tests/integration/test_integration.c:31-98 | both convolutions agree on every NONE and RELU job whose output sizes fit 16 bits |
| OtherConvs.ConvolutionsAgreeExactly | sw/tests/integration/test_integration.c:49-50 | and on no other, unless there is no output at all |
| OtherConvs.LeakyDiffers | sw/tests/integration/test_integration.c:91-92 | a leaky accumulator of -8 tells them apart |
| OtherConvs.PythonAgrees | model/ref/conv_ref.py:48-84 | where its sizes agree, the Python convolution equals both others for RELU, element for element |
| OtherConvs.PythonCell | model/ref/conv_ref.py:54-82 | one output: the Python loops over nested arrays accumulate the zero-padded window, then bias, rectify, shift and clamp |
| OtherConvs.Conv2dInt8 | model/ref/conv_ref.py:44-84 | all its loops, for every call with matching channel counts: the result has the floored sizes and every place of it holds the output of the flattened job |
| OtherConvs.PythonMeaning | model/ref/conv_ref.py:56-82 | every Python output in numbers |
| OtherConvs.FloorSizeExact | model/ref/conv_ref.py:48-49 | its sizes: the last counted window fits and the next does not |
| OtherConvs.JobFlattens | model/ref/conv_ref.py:44-51 | every pair of nested arrays and bias has such a job, holding their elements row by row |
| OtherConvs.ThreeFinishesAgree | model/ref/conv_ref.py:74-82 | the Python post-processing agrees with both for RELU, and none yields a negative value |
| OtherConvs.SizesAgreeExactly | model/ref/conv_ref.py:48-49 | Python's and C's output sizes agree exactly when the window fits or the stride divides the shortfall |
| Pool.MaxCellIsGreatest | tb/integration/npu_tb.h:361-379 | a max-pool output is the greatest covered input, or -128 |
| Pool.MaxAbove | tb/integration/npu_tb.h:361-379 | every input the window meets, by its explicit index, is at most the max-pool output |
| Pool.MaxAttained | tb/integration/npu_tb.h:361-379 | and the output is one of these inputs or -128 |
| Pool.AverageWithin | tb/integration/npu_tb.h:380-409 | an average whose sum fits its register is the truncated quotient and lies within any bounds of its zero-padded window, so the clamp never acts |
| Pool.AverageMeaning | tb/integration/npu_tb.h:380-409 | an average is the sum of exactly these inputs divided by the window's area toward zero |
| Pool.OutputSizes | tb/integration/npu_tb.h:350-351 | which windows have an output |
| Pool.WindowSumFits | tb/integration/npu_tb.h:384-394 | the sum fits for every window of up to 2^24 positions |
| Pool.WindowSumOverflows | tb/integration/npu_tb.h:384-394 | and does not for a larger one of -128 throughout |
| Pool.CoveredTap | tb/integration/npu_tb.h:368-373 | every guarded read is in bounds |
| Pool.PoolCell | tb/integration/npu_tb.h:337-414 | where each output sits |
| Pool.RefPool | tb/integration/npu_tb.h:337-414 | the loops compute every output |
| Layout.ValidateExact | sw/runtime/tensor_desc.c:8-30 | a descriptor passes exactly when it is one image of positive size in a known layout with a 32-bit element count |
| Layout.ValidateErrors | sw/runtime/tensor_desc.c:8-30 | which error every other descriptor gets |
| Layout.TransposeInverse | sw/runtime/tensor_desc.c:32-37 | the index map is a bijection of the image and its transpose undoes it |
| Layout.ImageMeaning | sw/runtime/tensor_desc.c:39-71 | place (h, w, c) holds source element (c, h, w), and the map gives it back |
| Layout.ImageCovers | sw/runtime/tensor_desc.c:39-71 | every place of the image is written from exactly one source element, nothing outside changes |
| Layout.AfterMeaning | sw/runtime/tensor_desc.c:54-69 | after t elements exactly those are in place |
| Layout.CopyRow | sw/runtime/tensor_desc.c:67-68 | the innermost loop: it has a defined meaning exactly when all its subscripts fit an int, and then puts every element of the row in place |
| Layout.ConvertNchwToNhwc | sw/runtime/tensor_desc.c:39-71 | the pointer-stepping loops perform the copy, in bounds, exactly when the subscripts fit an int |
| Layout.ConvertToNhwc | sw/runtime/tensor_desc.c:73-118 | for every descriptor and buffer: errors in the source's order with the destination untouched; NHWC copied as is; NCHW permuted element by element in terms of the two index formulas, exactly when the subscripts fit an int |
| Layout.ConvertedAt | sw/runtime/tensor_desc.c:39-71 | the permutation in numbers: element (h * W + w) * C + c is source element (c * H + h) * W + w, and nothing behind the tensor changes |
| Layout.SubscriptsExact | sw/runtime/tensor_desc.c:67-68 | where int wraps around, every `w * C` is right exactly when all fit an int; otherwise some subscript is negative |
| Layout.LastSubscriptDecides | sw/runtime/tensor_desc.c:67-68 | they all fit exactly when the last one, (W - 1) * C, is at most 2^31 - 1 |
| Layout.ValidButTooWide | sw/runtime/tensor_desc.c:24-29 | the validator accepts a descriptor beyond that |

## Left out

- Backend internals (`rtl/backends`, `rtl/composites`, `rtl/ops`) are not part of this model: a backend is the abstract machine described above, and kernel meaning comes from the reference kernels.
- The vector kernel `ref_vec`: one addition or multiplication per element, with the clamp and finish of the other kernels.
- Reset synchronizer, soft reset through `REG_CTRL`, clock gate, performance counters and feature ID: short or constant behaviour.
- Progress.RetiresWithin: the backends' time limits are its hypothesis; they follow from nothing in this model.
- DriverProgress.HolderCanReturn: says that a return can be reached, not that every fair schedule reaches it.
- DriverDma.CallMovesBlock: memories change by DMA only in it; the lock's invariant leaves no backend running during a call.
- Timeouts, signals and the reset ioctl of the driver: a wait ends only with a completion, and a DMA poll goes on until the engine is idle.
- Kernel plumbing (probe, ioctl copies, MMIO mapping): only lock, completion, interrupt and register effects are modelled.
- Host buffer-window accesses during a DMA transfer: they share the engines' grant and response lines in `rtl/core/npu_shell.sv`, so `Dma` has none.
- External memory and local buffers in `Dma` answer a granted read once, strictly later, with the word at the granted address; the delays are arbitrary.
- Internals of the Sky130 SRAM macro: a 512 x 32 array with a byte write mask, one-cycle reads and unspecified output after a write or on a row conflict.
- Signed overflow in the C and C++ kernels is undefined; accumulators are modelled as wrapping, and the lemmas say when nothing wraps; the layout copy stops at a subscript that overflows and reports it. Subscripts of the C++ vectors are unbounded integers.
- Layout.ConvertToNhwc: says nothing of the destination's contents after a subscript overflow, which C leaves undefined. Source and destination of an NCHW call are different buffers, as `restrict` demands.
- Softmax.RefSoftmax: asks that no row's sum wraps to exactly zero, where the source divides by zero; rows of up to 65535 elements never do.
- OtherConvs.Conv2dInt8: a negative output size, which the source's array allocation rejects, and channel counts that its assertion rejects are not part of it.
- Bus writes of the driver take effect in the clock cycle in which they are issued; delays of posted writes are not modelled.
- Fifo.Queue.Tick: the zero shown on an empty FIFO's data output is a parameter, since the element type is general.
- The doorbell ring while fetch is busy is ignored by the hardware and so counts as no accepted descriptor.
