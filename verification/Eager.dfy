/** The reference machine: fork copies every page at once and sbrk supplies zeroed pages at
    once.  It has no frames, no page tables and no faults. */
module Eager {
  import opened Frames

  const KERNBASE: nat := 0x8000_0000

  /** `user` is false only for the guard page below an exec'ed stack. */
  datatype EPage = EPage(data: Page, user: bool)
  datatype Space = Space(size: nat, pages: seq<EPage>)
  type Spaces = map<nat, Space>

  /** PGROUNDUP(size) / PGSIZE */
  function NPages(size: nat): nat {
    (size + PGSIZE - 1) / PGSIZE
  }

  function Blank(): EPage {
    EPage(ZeroPage(), true)
  }

  function Fork(e: Spaces, d: nat, child: nat): Spaces
    requires d in e
  {
    e[child := e[d]]
  }

  function Resize(sp: Space, size: nat): Space {
    var n := NPages(size);
    Space(size, if n <= |sp.pages| then sp.pages[..n]
                else sp.pages + seq(n - |sp.pages|, _ => Blank()))
  }

  function Sbrk(e: Spaces, d: nat, size: nat): Spaces
    requires d in e
  {
    e[d := Resize(e[d], size)]
  }

  predicate Mapped(e: Spaces, d: nat, va: nat) {
    d in e && va / PGSIZE < |e[d].pages|
  }

  function Load(e: Spaces, d: nat, va: nat): Byte
    requires Mapped(e, d, va)
  {
    e[d].pages[va / PGSIZE].data[va % PGSIZE]
  }

  function Store(e: Spaces, d: nat, va: nat, b: Byte): Spaces
    requires Mapped(e, d, va)
  {
    var v := va / PGSIZE;
    var p := e[d].pages[v];
    e[d := e[d].(pages := e[d].pages[v := p.(data := p.data[va % PGSIZE := b])])]
  }

  function Exit(e: Spaces, d: nat): Spaces {
    e - {d}
  }
}
