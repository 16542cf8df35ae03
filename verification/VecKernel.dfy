/** The hooks of altivec/vec_context.c as they update the thread control blocks, the registers
    and memory in place. */
module VecKernel {
  import opened VecIsa
  import opened VecHeap
  import opened VecSwitch

  class Kernel {
    var threads: map<Tid, Thread>
    var executing: Tid
    var owner: Option<Tid>
    var msr: Msr
    var regs: VecFile
    const store: AlignedHeap
    ghost var sound: bool

    ghost function State(): Machine
      reads this, store
    {
      Machine(threads, executing, owner, msr, regs, store.State(), sound)
    }

    /** The extension is installed. */
    constructor (m: Machine)
      requires VecSwitch.Initial(m)
      ensures State() == m && Inv(State())
    {
      InitialInv(m);
      threads, executing, owner, msr := m.threads, m.executing, m.owner, m.msr;
      regs, sound := m.regs, m.sound;
      store := new AlignedHeap(m.heap.mem);
    }

    method GetContext(t: Tid) returns (vp: int)
      ensures vp == Slot(State(), t)
    {
      vp := if t in threads then threads[t].slot else 0;
    }

    method SetContext(t: Tid, vp: int)
      modifies this`threads
      ensures State() == SetSlot(old(State()), t, vp)
    {
      if t in threads {
        threads := threads[t := threads[t].(slot := vp)];
      }
    }

    /** save_vec_context: the assembly is run. */
    method SaveVecContext(vp: int)
      requires regs.Ok() && WordAligned(store.mem) && Mapped(store.mem, vp)
      modifies this, store
      ensures State() == SaveRegs(old(State()), vp)
    {
      sound := sound && msr.ve && IsContext(store.State(), vp);
      var cpu := Cpu(regs, 0, 0, 0, store.mem, [], true);
      SaveCorrect(cpu, vp);
      cpu := Run(SaveProgram(), cpu, vp);
      regs := cpu.file;
      store.mem := cpu.mem;
    }

    /** load_vec_context; junk is what lvewx leaves undefined. */
    method LoadVecContext(vp: int, junk: Vec)
      requires regs.Ok() && vp % 32 == 0
      modifies this, store
      ensures State() == LoadRegs(old(State()), vp)
    {
      sound := sound && msr.ve && IsContext(store.State(), vp);
      var cpu := Cpu(regs, 0, 0, 0, store.mem, [], true);
      LoadCorrect(cpu, vp, junk);
      regs := Run(LoadProgram(junk), cpu, vp).file;
    }

    /** vec_thread_switch: every context keeps its value, and the MSR its own. */
    method VecThreadSwitch(heir: Tid, junk: Vec)
      requires Coherent(State())
      modifies this, store
      ensures State() == SwitchHook(old(State()), heir)
      ensures Coherent(State()) && msr == old(msr)
      ensures forall t :: Logical(State(), t) == old(Logical(State(), t))
    {
      ghost var before := State();
      SwitchHookKeeps(before, heir);
      SlotsMapped(before);
      var vp := GetContext(heir);
      if vp != 0 && owner != Some(heir) {
        var was := msr;
        msr := msr.(ve := true);
        if owner.Some? {
          var saved := GetContext(owner.value);
          SaveVecContext(saved);
        }
        LoadVecContext(vp, junk);
        owner := Some(heir);
        msr := was;
      }
    }

    /** vec_task_enable, from the test of MSR_VE on. */
    method VecTaskEnable(granted: int, junk: Vec) returns (r: EnableResult)
      requires Inv(State()) && VecSwitch.Possible(State(), Enable(granted))
      modifies this, store
      ensures (State(), r) == EnableTask(old(State()), granted)
      ensures Inv(State()) && (r == Enabled ==> owner == Some(executing) && msr.ve)
    {
      ghost var before := State();
      EnableRefines(before, granted);
      if msr.ve {
        return AlreadyEnabled;
      }
      if granted != 0 {
        EquippedCoherent(before, granted);
        FreshContext(before, granted);
      }
      var vp := store.ExtAllocate(granted);
      if vp == 0 {
        return NoMemory;
      }
      store.mem := InitContext(store.mem, vp);
      sound := sound && Slot(State(), executing) == 0;
      SetContext(executing, vp);
      assert State() == Equipped(before, granted);
      VecThreadSwitch(executing, junk);
      msr := msr.(ve := true);
      r := Enabled;
    }

    /** vec_thread_fixup_env. */
    method VecThreadFixupEnv(t: Tid)
      modifies this`threads
      ensures State() == FixupEnv(old(State()), t)
      ensures threads == if t !in old(threads) then old(threads)
                         else old(threads)[t := old(threads)[t].(msr := Msr(false, old(threads)[t].msr.rest))]
    {
      if t in threads {
        threads := threads[t := threads[t].(msr := threads[t].msr.(ve := false))];
      }
    }

    /** vec_thread_delete. */
    method VecThreadDelete(deletee: Tid)
      modifies this, store
      ensures State() == DeleteHook(old(State()), deletee)
      ensures old(Coherent(State())) ==> Coherent(State())
    {
      if old(Coherent(State())) && deletee in threads {
        DeleteHookKeeps(State(), deletee);
      }
      if owner == Some(deletee) {
        if executing == deletee {
          msr := msr.(ve := false);
        }
        owner := None;
      }
      VecThreadFixupEnv(deletee);
      var vc := GetContext(deletee);
      if vc != 0 {
        var ok := store.ExtRelease(vc);
        sound := sound && ok;
        SetContext(deletee, 0);
      }
    }

    /** vec_thread_restart. */
    method VecThreadRestart(restartee: Tid)
      modifies this, store
      ensures State() == RestartHook(old(State()), restartee)
      ensures restartee in old(threads) ==>
        var was := old(threads)[restartee];
        threads == old(threads)[restartee := Thread(was.status, Msr(false, was.msr.rest), 0)]
    {
      VecThreadDelete(restartee);
      VecThreadFixupEnv(restartee);
    }
  }

  /** The buffers that the switch hook may touch are all there. */
  lemma SlotsMapped(m: Machine)
    requires Coherent(m)
    ensures forall t | Slot(m, t) != 0 :: Mapped(m.heap.mem, Slot(m, t))
  {
    var ctx := Contexts(m);
    forall t | Slot(m, t) != 0
      ensures Mapped(m.heap.mem, Slot(m, t))
    {
      assert t in ctx && ctx[t] == Slot(m, t);
      ContextLayout(m.heap, ctx, t);
    }
  }
}
