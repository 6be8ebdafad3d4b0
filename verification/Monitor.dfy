/** Exclusive access to one word of memory.

    A `Cell` is a word together with one exclusive monitor per agent.  LDREX tags the word for its
    agent, every store clears every tag, CLREX gives the agent's own tag up, and a tag may be lost at
    any time (section A3.4 of the ARMv7-M Architecture Reference Manual).  A STREX can only succeed
    while its agent's tag is set; whoever models a STREX checks that. */
module Monitor {
  type Agent = nat

  /** `seen[a]` is the register that agent a's last LDREX filled. */
  datatype Cell<V> = Cell(word: V, seen: map<Agent, V>, tagged: set<Agent>) {
    /** What a set tag promises: nobody stored to the word since the agent's LDREX. */
    ghost predicate Coherent() {
      forall a :: a in tagged ==> a in seen && seen[a] == word
    }

    ghost function Ldrex(a: Agent): Cell<V> {
      Cell(word, seen[a := word], tagged + {a})
    }

    ghost function Untag(a: Agent): Cell<V> {
      Cell(word, seen, tagged - {a})
    }

    /** A store, by STREX or otherwise: no agent's tag survives it. */
    ghost function Store(v: V): Cell<V> {
      Cell(v, seen, {})
    }
  }

  ghost function FreshCell<V>(v: V): Cell<V> {
    Cell(v, map[], {})
  }
}
