/** SwitchToPABuffer of DBKKernel/ultimap2.c as code that updates ProcessorInfo and the trace registers. */
module BufferSwitch {
  import opened Topa
  import opened TraceOutput
  import opened TraceBuffers

  class ProcessorInfo {
    var info: Fields
    var threads: Threads
    var interrupted: bool
    var currentOutputBase: nat
    var currentSaveOutputBase: nat
    var currentSaveOutputMask: nat
    var registers: Registers

    // the stacked copy of IA32_RTIT_CTL, the memory, and what was output
    var savedCtl: bool
    ghost var memory: map<nat, nat>
    ghost var log: Log

    ghost function State(): Cpu
      reads this
    {
      Cpu(info, threads, interrupted, currentSaveOutputBase, currentSaveOutputMask, savedCtl, registers, memory, log)
    }

    method ExchangeBuffers()
      modifies `info
      ensures var i := old(info);
        info == Fields(i.buffer2, i.buffer, i.mdl2, i.mdl, i.header2, i.header, i.lookup2, i.lookup)
    {
      var temp := info.buffer;
      info := info.(buffer := info.buffer2);
      info := info.(buffer2 := temp);
      temp := info.mdl;
      info := info.(mdl := info.mdl2);
      info := info.(mdl2 := temp);
      temp := info.header;
      info := info.(header := info.header2);
      info := info.(header2 := temp);
      temp := info.lookup;
      info := info.(lookup := info.lookup2);
      info := info.(lookup2 := temp);
    }

    method Restart(pair: Pair)
      requires |pair| == 2 && info.header < 2 && |pair[info.header].tables| > 0 && !registers.position.stopped
      modifies `currentOutputBase, `registers, `threads
      ensures registers == Registers(savedCtl, Start(pair[info.header]))
      ensures currentOutputBase == registers.position.base
      ensures threads == old(threads).(dpc := Idle)
    {
      currentOutputBase := pair[info.header].tables[0];
      registers := registers.(position := registers.position.(base := currentOutputBase));
      registers := registers.(position := registers.position.(index := 0, offset := 0));
      registers := registers.(traceEn := savedCtl);
      threads := threads.(dpc := Idle);
    }

    /** Run from a queued DPC, it does what the twelve stages of the protocol do when nothing comes between them. */
    method SwitchToPABuffer(pair: Pair, flushAllBuffers: bool)
      requires |pair| == 2 && info.header2 < 2 && |pair[info.header2].tables| > 0
      modifies this
      ensures State() == Switched(pair, old(State()), flushAllBuffers)
    {
      hide MaskPtrs, SwapOut;
      if !interrupted {
        if !flushAllBuffers && registers.position.index < 2 {
          threads := threads.(dpc := Idle);
          return;
        }
      }
      savedCtl := registers.traceEn;
      registers := Registers(false, registers.position.(stopped := false));
      threads := threads.(ready := false);
      ExchangeBuffers();
      currentSaveOutputBase := registers.position.base;
      currentSaveOutputMask := MaskPtrs(registers.position, 127);
      log := SwapOut(log);
      threads := threads.(initiateSave := true);
      interrupted := false;
      Restart(pair);
    }
  }
}
