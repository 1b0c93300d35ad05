/** A ring buffer in shared memory with one producer and one consumer, as interleaved atomic steps. */
module SpscQueues {
  import opened Logs

  const SLEEP_MASK: nat := 0x8000_0000_0000_0000

  predicate Sleeping(head: nat) { head >= SLEEP_MASK }

  /** The position in a head word, without the sleep bit. */
  function PositionIn(head: nat): nat { if Sleeping(head) then head - SLEEP_MASK else head }

  function Next(i: nat, n: nat): nat { if i + 1 == n then 0 else i + 1 }

  /** The number of cells from one position forward to another. */
  function InFlight(p: nat, tail: nat, n: nat): int
  {
    if p <= tail then tail - p else tail + n - p
  }

  /** The cell a number of steps after a position. */
  function CellAt(p: nat, k: nat, n: nat): int
  {
    if p + k < n then p + k else p + k - n
  }

  /** The cells between the two positions hold, in order, exactly what was pushed and not yet popped. */
  ghost predicate Ring<T(!new)>(cells: seq<T>, p: nat, tail: nat, pushed: seq<T>, popped: seq<T>)
  {
    var n := |cells|;
    2 <= n < SLEEP_MASK && p < n && tail < n && popped <= pushed && InFlight(p, tail, n) == |pushed| - |popped| &&
    forall k :: 0 <= k < |pushed| - |popped| ==>
      0 <= CellAt(p, k, n) < n && cells[CellAt(p, k, n)] == pushed[|popped| + k]
  }

  /** Writing the cell at the tail overwrites nothing unread. */
  lemma {:induction false} StoreKeeps<T(!new)>(cells: seq<T>, p: nat, tail: nat, pushed: seq<T>, popped: seq<T>, m: T)
    requires Ring(cells, p, tail, pushed, popped)
    ensures Ring(cells[tail := m], p, tail, pushed, popped)
    ensures forall k :: 0 <= k < |pushed| - |popped| ==> CellAt(p, k, |cells|) != tail
  {
  }

  lemma {:induction false} PushKeeps<T(!new)>(cells: seq<T>, p: nat, tail: nat, pushed: seq<T>, popped: seq<T>, m: T)
    requires Ring(cells, p, tail, pushed, popped) && cells[tail] == m && |pushed| - |popped| < |cells| - 1
    ensures Ring(cells, p, Next(tail, |cells|), pushed + [m], popped)
  {
  }

  lemma {:induction false} PopKeeps<T(!new)>(cells: seq<T>, p: nat, tail: nat, pushed: seq<T>, popped: seq<T>)
    requires Ring(cells, p, tail, pushed, popped) && p != tail
    ensures Ring(cells, Next(p, |cells|), tail, pushed, popped + [cells[p]])
  {
    assert CellAt(p, 0, |cells|) == p;
    var popped' := popped + [cells[p]];
    assert popped' == pushed[..|popped'|];
    forall k | 0 <= k < |pushed| - |popped'|
      ensures CellAt(Next(p, |cells|), k, |cells|) == CellAt(p, k + 1, |cells|)
    {
    }
  }

  /** The ring is full or empty exactly when the two tests of the code say so. */
  lemma {:induction false} FullAndEmpty<T(!new)>(cells: seq<T>, p: nat, tail: nat, pushed: seq<T>, popped: seq<T>)
    requires Ring(cells, p, tail, pushed, popped)
    ensures 0 <= |pushed| - |popped| <= |cells| - 1
    ensures Next(tail, |cells|) == p <==> |pushed| - |popped| == |cells| - 1
    ensures p == tail <==> pushed == popped
  {
    if p == tail {
      assert pushed[..|pushed|] == pushed;
    }
  }

  /** Where the producer is: before loading the head, before writing the cell, before moving the tail. */
  datatype Producer<T> =
    | Idle
    | Loading(message: T)
    | Storing(current: nat, next: nat, message: T)
    | Publishing(current: nat, next: nat, message: T)

  /**
   Where the consumer is: before clearing its sleep bit, before loading the tail, before reading the cell,
   before moving the head.
   */
  datatype Consumer<T> =
    | Resting
    | Waking(current: nat)
    | Checking(current: nat)
    | Reading(current: nat)
    | Releasing(current: nat, message: T)

  class SpscQueue<T(0,!new)> {
    const cells: array<T>
    var head: nat
    var tail: nat
    var wakeupFlag: bool
    var producer: Producer<T>
    var consumer: Consumer<T>
    ghost var pushed: seq<T>
    ghost var popped: seq<T>

    constructor (queueSize: nat)
      requires 2 <= queueSize < SLEEP_MASK
      ensures Valid() && fresh(cells) && cells.Length == queueSize
      ensures pushed == [] && popped == [] && producer.Idle? && consumer.Resting? && !Sleeping(head)
    {
      cells := new T[queueSize];
      head, tail, wakeupFlag, producer, consumer, pushed, popped := 0, 0, false, Idle, Resting, [], [];
    }

    ghost predicate Valid()
      reads this, cells
    {
      Ring(cells[..], PositionIn(head), tail, pushed, popped) && PositionIn(head) < SLEEP_MASK && ProducerOk() &&
      ConsumerOk()
    }

    /** While the producer writes, its cell is free; when it publishes, its cell holds the message. */
    ghost predicate ProducerOk()
      reads this, cells
    {
      match producer
      case Idle => true
      case Loading(_) => true
      case Storing(current, next, _) => current == tail < cells.Length && next == Next(tail, cells.Length) &&
                                        |pushed| - |popped| < cells.Length - 1
      case Publishing(current, next, m) => current == tail < cells.Length && next == Next(tail, cells.Length) &&
                                           |pushed| - |popped| < cells.Length - 1 && cells[tail] == m
    }

    /** While the consumer reads, its cell is in use; when it releases it, it has the oldest unread message. */
    ghost predicate ConsumerOk()
      reads this, cells
    {
      match consumer
      case Resting => true
      case Waking(current) => current == PositionIn(head)
      case Checking(current) => current == PositionIn(head) && !Sleeping(head)
      case Reading(current) => current == PositionIn(head) != tail && !Sleeping(head)
      case Releasing(current, m) => current == PositionIn(head) != tail && !Sleeping(head) &&
                                    current < cells.Length && cells[current] == m
    }

    // -------------------------------------------------------------- producer steps

    /** Starts to push; the tail is the producer's own. */
    method BeginPush(message: T)
      requires Valid() && producer.Idle?
      modifies this`producer
      ensures Valid() && producer == Loading(message)
    {
      producer := Loading(message);
    }

    /** Loads the head: wakes the consumer if it has to, and gives up if and only if the ring is full at this moment. */
    method LoadHead() returns (full: bool, wake: bool)
      requires Valid() && producer.Loading?
      modifies this`producer, this`wakeupFlag
      ensures Valid() && (full <==> |pushed| - |popped| == cells.Length - 1)
      ensures full ==> producer.Idle?
      ensures !full ==> producer == Storing(tail, Next(tail, cells.Length), old(producer).message)
      ensures wake <==> Sleeping(head) && !old(wakeupFlag)
      ensures wakeupFlag <==> Sleeping(head)
    {
      var current := tail;
      var next := if current + 1 == cells.Length then 0 else current + 1;
      var h := head;
      wake := false;
      if Sleeping(h) {
        if !wakeupFlag {
          wakeupFlag := true;
          wake := true;
        }
        h := PositionIn(h);
      } else {
        wakeupFlag := false;
      }
      FullAndEmpty(cells[..], PositionIn(head), tail, pushed, popped);
      full := next == h;
      producer := if full then Idle else Storing(current, next, producer.message);
    }

    /** Writes the message; no unread cell changes. */
    method StoreCell()
      requires Valid() && producer.Storing?
      modifies this`producer, cells
      ensures Valid() && producer == Publishing(old(producer).current, old(producer).next, old(producer).message)
      ensures forall k :: 0 <= k < |pushed| - |popped| ==>
        cells[CellAt(PositionIn(head), k, cells.Length)] == old(cells[CellAt(PositionIn(head), k, cells.Length)])
    {
      StoreKeeps(cells[..], PositionIn(head), tail, pushed, popped, producer.message);
      ghost var cells0 := cells[..];
      cells[producer.current] := producer.message;
      assert cells[..] == cells0[tail := producer.message];
      producer := Publishing(producer.current, producer.next, producer.message);
    }

    /** Moves the tail: this is when the message has been pushed. */
    method StoreTail()
      requires Valid() && producer.Publishing?
      modifies this`producer, this`tail, this`pushed
      ensures Valid() && producer.Idle? && pushed == old(pushed) + [old(producer).message]
    {
      PushKeeps(cells[..], PositionIn(head), tail, pushed, popped, producer.message);
      FullAndEmpty(cells[..], PositionIn(head), tail, pushed, popped);
      pushed := pushed + [producer.message];
      tail := producer.next;
      producer := Idle;
      FullAndEmpty(cells[..], PositionIn(head), tail, pushed, popped);
    }

    // -------------------------------------------------------------- consumer steps

    /** Sets the sleep bit; the position stays. */
    method ConsumerEnterSleep()
      requires Valid() && consumer.Resting?
      modifies this`head
      ensures Valid() && Sleeping(head) && PositionIn(head) == old(PositionIn(head))
    {
      head := if Sleeping(head) then head else head + SLEEP_MASK;
    }

    /** Starts to pop. */
    method BeginPop()
      requires Valid() && consumer.Resting?
      modifies this`consumer
      ensures Valid() && consumer == if Sleeping(head) then Waking(PositionIn(head)) else Checking(PositionIn(head))
    {
      consumer := if Sleeping(head) then Waking(PositionIn(head)) else Checking(head);
    }

    /** Clears the sleep bit; the position stays. */
    method ClearSleep()
      requires Valid() && consumer.Waking?
      modifies this`consumer, this`head
      ensures Valid() && !Sleeping(head) && PositionIn(head) == old(PositionIn(head)) &&
              consumer == Checking(old(consumer).current)
    {
      head := PositionIn(head);
      consumer := Checking(consumer.current);
    }

    /** Loads the tail; gives up if and only if the ring is empty at this moment. */
    method LoadTail() returns (empty: bool)
      requires Valid() && consumer.Checking?
      modifies this`consumer
      ensures Valid() && (empty <==> pushed == popped)
      ensures consumer == if empty then Resting else Reading(old(consumer).current)
    {
      FullAndEmpty(cells[..], PositionIn(head), tail, pushed, popped);
      empty := consumer.current == tail;
      consumer := if empty then Resting else Reading(consumer.current);
    }

    /** Reads the cell: the oldest message not yet popped. */
    method LoadCell()
      requires Valid() && consumer.Reading?
      modifies this`consumer
      ensures Valid() && |popped| < |pushed| && consumer == Releasing(old(consumer).current, pushed[|popped|])
    {
      FullAndEmpty(cells[..], PositionIn(head), tail, pushed, popped);
      assert CellAt(PositionIn(head), 0, cells.Length) == PositionIn(head);
      consumer := Releasing(consumer.current, cells[consumer.current]);
    }

    /** Moves the head: this is when the message has been popped. */
    method StoreHead() returns (message: T)
      requires Valid() && consumer.Releasing?
      modifies this`consumer, this`head, this`popped
      ensures Valid() && consumer.Resting? && |old(popped)| < |pushed| && message == pushed[|old(popped)|]
      ensures popped == old(popped) + [message]
    {
      message := consumer.message;
      PopKeeps(cells[..], PositionIn(head), tail, pushed, popped);
      FullAndEmpty(cells[..], PositionIn(head), tail, pushed, popped);
      assert CellAt(PositionIn(head), 0, cells.Length) == PositionIn(head);
      popped := popped + [message];
      head := if consumer.current + 1 == cells.Length then 0 else consumer.current + 1;
      consumer := Resting;
    }

    // -------------------------------------------------------------- runs

    /** In every reachable state what was popped is a prefix of what was pushed, and the ring is never overfull. */
    lemma {:induction false} InOrder()
      requires Valid()
      ensures popped <= pushed && |pushed| - |popped| <= cells.Length - 1
    {
      FullAndEmpty(cells[..], PositionIn(head), tail, pushed, popped);
    }

    /** The next step of the producer, whichever it is. */
    method StepProducer(message: T)
      requires Valid()
      modifies this`producer, this`wakeupFlag, this`tail, this`pushed, cells
      ensures Valid() && old(pushed) <= pushed
    {
      match producer
      case Idle => BeginPush(message);
      case Loading(_) => var full, wake := LoadHead();
      case Storing(_, _, _) => StoreCell();
      case Publishing(_, _, _) => StoreTail();
    }

    /** The next step of the consumer, whichever it is; a resting consumer may go to sleep. */
    method StepConsumer(sleep: bool)
      requires Valid()
      modifies this`consumer, this`head, this`popped
      ensures Valid() && old(popped) <= popped
    {
      match consumer
      case Resting =>
        if sleep {
          ConsumerEnterSleep();
        } else {
          BeginPop();
        }
      case Waking(_) => ClearSleep();
      case Checking(_) => var empty := LoadTail();
      case Reading(_) => LoadCell();
      case Releasing(_, _) => var message := StoreHead();
    }

    /** Any interleaving of the steps of both sides. */
    method Run(schedule: seq<Choice<T>>)
      requires Valid()
      modifies this, cells
      ensures Valid() && old(pushed) <= pushed && old(popped) <= popped <= pushed
    {
      for i := 0 to |schedule|
        invariant Valid() && old(pushed) <= pushed && old(popped) <= popped
      {
        match schedule[i]
        case Produce(message) => StepProducer(message);
        case Consume(sleep) => StepConsumer(sleep);
      }
      InOrder();
    }
  }

  datatype Choice<T> = Produce(message: T) | Consume(sleep: bool)
}
