/** What the passes before the fork guarantee about a body to be forked. */
module ForkInput {
  import opened AsyncIR

  predicate IsFoldingSemaphore(sema: Semaphore, f: string) { sema.FoldingSemaphore? && sema.func == f }

  predicate IsFoldingHead(buffer: Stored, f: string) { buffer.FoldingHead? && buffer.func == f }

  /** The counters the producer task keeps. */
  predicate IsProducerCounter(buffer: Stored, f: string) { !buffer.OtherBuffer? && buffer.func == f }

  /** No acquire and no producer counter anywhere in `s`. */
  predicate Plain(s: Stmt, f: string) {
    match s
    case Do(leaf) => leaf.Store? ==> !IsProducerCounter(leaf.buffer, f)
    case LetStmt(_, _, body) => Plain(body, f)
    case Scoped(_, body) => Plain(body, f)
    case For(_, _, _, body) => Plain(body, f)
    case Block(first, rest) => Plain(first, f) && Plain(rest, f)
    case Fork(_, _) => false
    case IfThenElse(_, thenCase, elseCase) => Plain(thenCase, f) && Plain(elseCase, f)
    case Atomic(_, body) => Plain(body, f)
    case Acquire(_, _, _) => false
    case ProducerConsumer(name, _, body) => name != f && Plain(body, f)
    case _ => true
  }

  /** The nodes of `f` are not nested in one another, an acquire is a folding acquire of `f` around
      its produce node, and nothing is forked yet. */
  predicate Forkable(s: Stmt, f: string) {
    match s
    case LetStmt(_, _, body) => Forkable(body, f)
    case Scoped(_, body) => Forkable(body, f)
    case For(_, _, _, body) => Forkable(body, f)
    case Block(first, rest) => Forkable(first, f) && Forkable(rest, f)
    case Fork(_, _) => false
    case IfThenElse(_, thenCase, elseCase) => Forkable(thenCase, f) && Forkable(elseCase, f)
    case Atomic(_, body) => Plain(body, f)
    case Acquire(sema, _, body) => IsFoldingSemaphore(sema, f) && ProduceNodes(body, f) > 0 && Forkable(body, f)
    case ProducerConsumer(name, isProducer, body) => if name == f then Plain(body, f) else Forkable(body, f)
    case _ => true
  }
}
