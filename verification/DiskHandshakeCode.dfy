/** cmd_out, hd_intr_handler and the semaphore disk_done of a channel, updated in place; proved against
    DiskHandshake. The asserts of the source are asserts here. */
module DiskHandshakeCode {
  import opened Disk
  import opened DiskHandshake

  class IdeChannel {
    var expectingIntr: bool
    var value: nat
    var waiters: seq<nat>
    var blocked: bool
    ghost var rest: State

    /** The state of the handshake; `rest` is the driving thread and the history. */
    ghost function View(): State
      reads this
    {
      rest.(expecting := expectingIntr, value := value, waiters := waiters, asleep := blocked)
    }

    constructor ()
      ensures View() == Boot() && Inv(View())
    {
      expectingIntr, value, waiters, blocked := false, 0, [], false;
      rest := Boot();
      new;
      hide Inv;
      BootInv();
    }

    /** The store to expecting_intr. */
    method AnnounceCommand()
      requires Inv(View()) && View().pc == Flag
      modifies this
      ensures Inv(View()) && Drive(old(View()), true) == Ok(View()) && expectingIntr
    {
      StepKeeps(View(), DriverStep(true));
      hide Inv;
      expectingIntr := true;
      rest := rest.(pc := Send);
    }

    /** The write to the command register. */
    method SendCommand()
      requires Inv(View()) && View().pc == Send
      modifies this
      ensures Inv(View()) && Drive(old(View()), true) == Ok(View())
    {
      StepKeeps(View(), DriverStep(true));
      hide Inv;
      rest := rest.(pc := if rest.op == ReadSector then Down else Busy, commands := rest.commands + 1);
    }

    /** cmd_out: the flag first, then the command; `early` is whether an interrupt comes in between. */
    method CmdOut(early: bool)
      requires Inv(View()) && View().pc == Flag
      modifies this
      ensures Inv(View())
      ensures var s := old(View());
              Run(s, [DriverStep(true)] + (if early then [Intr] else []) + [DriverStep(true)], View())
    {
      AnnounceCommand();
      ghost var s := View();
      if early {
        HdIntrHandler();
      }
      ghost var t := View();
      SendCommand();
      hide Inv, Drive, Interrupt;
      assert Run(t, [DriverStep(true)], View());
      if early {
        assert Run(s, [Intr] + [DriverStep(true)], View());
        assert [DriverStep(true)] + [Intr] + [DriverStep(true)] == [DriverStep(true)] + ([Intr] + [DriverStep(true)]);
      }
    }

    /** sema_up */
    method SemaUp(ghost s: State)
      requires Inv(s) && s.expecting && View() == s.(expecting := false)
      modifies this
      ensures Inv(View()) && Interrupt(s) == Ok(View())
    {
      StepKeeps(s, Intr);
      assert value == 0;
      if waiters != [] {
        assert waiters[0] == DRIVER && blocked;
        waiters := waiters[1..];
        blocked := false;
      }
      value := value + 1;
      assert value == 1;
      rest := rest.(ups := rest.ups + 1);
    }

    /** hd_intr_handler, for the right channel. */
    method HdIntrHandler()
      requires Inv(View())
      modifies this
      ensures Inv(View()) && Interrupt(old(View())) == Ok(View())
    {
      if expectingIntr {
        ghost var s := View();
        expectingIntr := false;
        SemaUp(s);
      }
    }

    /** One pass of the loop of sema_down; true when the token is taken. */
    method SemaDown() returns (taken: bool)
      requires Inv(View()) && View().pc == Down && !blocked
      modifies this
      ensures Inv(View()) && Drive(old(View()), true) == Ok(View()) && taken == (old(value) != 0)
    {
      ghost var s := View();
      StepKeeps(s, DriverStep(true));
      taken := value != 0;
      if value == 0 {
        assert DRIVER !in waiters;
        waiters := waiters + [DRIVER];
        blocked := true;
      } else {
        value := value - 1;
        assert value == 0;
        rest := Drive(s, true).state;
      }
    }
  }
}
