/** The reference counts of `msg_t`: several messages can share one content. */
module Msgs {
  /** The content of a long message. `refcnt` is in use only when a message is marked as shared. */
  class Content {
    var refcnt: nat
    var freed: bool

    constructor ()
      ensures refcnt == 0 && !freed
    {
      refcnt, freed := 0, false;
    }

    /** `atomic_counter_t::sub`: false iff the counter drops to zero. */
    method Sub(n: nat) returns (nonzero: bool)
      requires n <= refcnt
      modifies this`refcnt
      ensures refcnt == old(refcnt) - n && (nonzero <==> refcnt != 0)
    {
      refcnt := refcnt - n;
      nonzero := refcnt != 0;
    }

    method Free()
      requires !freed
      modifies this`freed
      ensures freed
    {
      freed := true;
    }
  }

  /** Stored in the message itself, in counted content (`lmsg`, `zclmsg`), or in constant data. */
  datatype Type = Vsm | Long | Constant

  class Message {
    var kind: Type
    var more: bool
    var shared: bool
    const content: Content

    /** The content is there, and a counter in use counts this message at least. */
    ghost predicate Valid()
      reads this, content
    {
      kind == Long ==> !content.freed && (shared ==> content.refcnt >= 1)
    }

    /** The number of messages that refer to the content of this one, itself included. */
    ghost function Holders(): nat
      reads this, content
    {
      if shared then content.refcnt else 1
    }

    constructor (kind: Type, more: bool, content: Content)
      requires !content.freed
      ensures Valid() && this.kind == kind && this.more == more && this.content == content && !shared
    {
      this.kind, this.more, this.shared, this.content := kind, more, false, content;
    }

    /** Gives up the reference of this message. */
    method Close()
      requires Valid()
      modifies content
      ensures kind == Long ==> (content.freed <==> old(Holders()) == 1)
      ensures kind == Long && shared ==> content.refcnt == old(content.refcnt) - 1
      ensures kind != Long ==> content.freed == old(content.freed) && content.refcnt == old(content.refcnt)
    {
      if kind == Long {
        if !shared {
          content.Free();
        } else {
          var nonzero := content.Sub(1);
          if !nonzero {
            content.Free();
          }
        }
      }
    }

    /** Prepares the message to be copied bit by bit `refs` times. */
    method AddRefs(refs: nat)
      requires Valid()
      modifies this`shared, content`refcnt
      ensures Valid()
      ensures kind == Long ==> Holders() == old(Holders()) + refs
      ensures old(shared) ==> shared
      ensures kind != Long ==> shared == old(shared) && content.refcnt == old(content.refcnt)
    {
      if refs == 0 {
        return;
      }
      if kind == Long {
        if shared {
          content.refcnt := content.refcnt + refs;
        } else {
          content.refcnt := refs + 1;
          shared := true;
        }
      }
    }

    /** Takes back references; false if this was the last of them. */
    method RmRefs(refs: nat) returns (left: bool)
      requires Valid() && (kind == Long ==> refs <= Holders())
      modifies content
      ensures kind == Long ==> (content.freed <==> old(Holders()) == refs)
      ensures kind == Long && shared ==> content.refcnt == old(content.refcnt) - refs
      ensures left <==> if kind == Long then !content.freed else refs == 0
      ensures kind != Long ==> content.freed == old(content.freed) && content.refcnt == old(content.refcnt)
    {
      if refs == 0 {
        return true;
      }
      if kind != Long || !shared {
        Close();
        return false;
      }
      var nonzero := content.Sub(refs);
      if !nonzero {
        content.Free();
        return false;
      }
      return true;
    }

    /** `init`: an empty message, detached from whatever it held. */
    method Init()
      modifies this`kind, this`more, this`shared
      ensures Valid() && kind == Vsm && !more && !shared
    {
      kind, more, shared := Vsm, false, false;
    }
  }
}
