/** The client's channel table: a bounded array, shifting removal, and byte accounting. */
module Registry {
  import opened CStrings
  import opened Dispatch
  import S = Subscription

  const MAX_CHANNELS := 32
  const MAX_CHANNEL_NAME_LENGTH := 128

  /** The table as a value: the names in order, the bytes accounted for, and their peak. */
  datatype Table = Table(names: seq<string>, bytes: int, peak: int)

  predicate NameFits(name: string) { |name| < MAX_CHANNEL_NAME_LENGTH }

  /** A create makes a new channel unless the name is too long, known, the table full, or memory short. */
  predicate Adds(t: Table, name: string, memory: bool) {
    NameFits(name) && name !in t.names && |t.names| < MAX_CHANNELS && memory
  }

  function AfterCreate(t: Table, name: string, memory: bool, channelSize: nat): Table {
    if !Adds(t, name, memory) then t
    else
      var bytes := t.bytes + channelSize;
      Table(t.names + [name], bytes, if bytes > t.peak then bytes else t.peak)
  }

  function AfterDestroy(t: Table, i: nat, channelSize: nat): Table
    requires i < |t.names|
  {
    Table(Without(t.names, i), t.bytes - channelSize, t.peak)
  }

  /** Everything but one element, in the same order. */
  function Without<T>(s: seq<T>, i: nat): seq<T>
    requires i < |s|
  {
    s[..i] + s[i + 1..]
  }

  class Client {
    const clientSize: nat
    const channelSize: nat
    const channels: array<Channel?>
    var channelCount: nat
    var allocatedBytes: int
    var peakBytes: int

    ghost predicate Valid()
      reads this, channels
    {
      channels.Length == MAX_CHANNELS && channelCount <= MAX_CHANNELS &&
      (forall i :: 0 <= i < channelCount ==> channels[i] != null) &&
      (forall i, j :: 0 <= i < j < channelCount ==> channels[i].name != channels[j].name)
    }

    ghost function Channels(): (r: seq<Channel>)
      requires Valid()
      reads this, channels
      ensures |r| == channelCount && forall i :: 0 <= i < |r| ==> r[i] == channels[i]
    {
      seq(channelCount, i requires 0 <= i < channelCount && Valid() reads this, channels => channels[i])
    }

    ghost function Names(): (r: seq<string>)
      requires Valid()
      reads this, channels
      ensures |r| == channelCount && forall i :: 0 <= i < |r| ==> r[i] == channels[i].name
    {
      seq(channelCount, i requires 0 <= i < channelCount && Valid() reads this, channels => channels[i].name)
    }

    ghost function Abs(): Table
      requires Valid()
      reads this, channels
    {
      Table(Names(), allocatedBytes, peakBytes)
    }

    constructor (clientSize: nat, channelSize: nat)
      ensures Valid() && fresh(channels) && Abs() == Table([], clientSize, clientSize)
      ensures this.clientSize == clientSize && this.channelSize == channelSize
    {
      this.clientSize, this.channelSize := clientSize, channelSize;
      channels := new Channel?[MAX_CHANNELS](_ => null);
      channelCount := 0;
      allocatedBytes, peakBytes := clientSize, clientSize;
    }

    /** `find_channel` */
    method Find(name: string) returns (channel: Channel?)
      requires Valid()
      ensures channel == null <==> name !in Names()
      ensures channel != null ==> channel in Channels() && channel.name == name
    {
      var i := 0;
      while i < channelCount
        invariant 0 <= i <= channelCount
        invariant forall k :: 0 <= k < i ==> channels[k].name != name
      {
        if channels[i].name == name {
          assert Channels()[i] == channels[i] && Names()[i] == name;
          return channels[i];
        }
        i := i + 1;
      }
      return null;
    }

    /** `oddsockets_channel_create` */
    method ChannelCreate(name: string, memory: bool) returns (channel: Channel?)
      requires Valid()
      modifies this, channels
      ensures Valid() && Abs() == AfterCreate(old(Abs()), name, memory, channelSize)
      ensures channel != null <==> NameFits(name) && (name in old(Names()) || Adds(old(Abs()), name, memory))
      ensures channel != null ==> channel.name == name && channel in Channels()
      // a known name gives back its own channel; a new one is appended
      ensures channel != null && name in old(Names()) ==> channel in old(Channels()) && Channels() == old(Channels())
      ensures channel != null && name !in old(Names()) ==> fresh(channel) && Channels() == old(Channels()) + [channel]
      ensures channel != null && name !in old(Names()) ==> channel.Abs() == S.FRESH && channel.Registered() == NO_CALLBACKS
      ensures channel == null ==> Channels() == old(Channels())
      // room for 32 names of at most 127 bytes
      ensures |name| < 128 && (name in old(Names()) || (|old(Names())| < 32 && memory)) <==> channel != null
      ensures allocatedBytes == old(allocatedBytes) + (|Channels()| - |old(Channels())|) * channelSize
    {
      if |name| >= MAX_CHANNEL_NAME_LENGTH { return null; }
      channel := Find(name);
      if channel != null { return; }
      if channelCount >= MAX_CHANNELS { return null; }
      if !memory { return null; }
      channel := new Channel(name);
      Append(channel);
    }

    method Append(channel: Channel)
      requires Valid() && channelCount < MAX_CHANNELS && channel.name !in Names()
      modifies this`channelCount, this`allocatedBytes, this`peakBytes, channels
      ensures Valid() && Channels() == old(Channels()) + [channel] && Names() == old(Names()) + [channel.name]
      ensures allocatedBytes == old(allocatedBytes) + channelSize
      ensures peakBytes == if allocatedBytes > old(peakBytes) then allocatedBytes else old(peakBytes)
    {
      ghost var names := Names();
      assert forall i :: 0 <= i < channelCount ==> names[i] == channels[i].name && names[i] in names;
      channels[channelCount] := channel;
      channelCount := channelCount + 1;
      allocatedBytes := allocatedBytes + channelSize;
      if allocatedBytes > peakBytes { peakBytes := allocatedBytes; }
    }

    /** `oddsockets_channel_destroy`: a subscribed channel is unsubscribed first, if the connection lets it;
        the channels after it move up by one place. */
    method ChannelDestroy(channel: Channel, connected: bool, sent: bool)
      returns (ghost at: nat, unsubscribed: Option<int>)
      requires Valid() && channel in Channels()
      modifies this`channelCount, this`allocatedBytes, channels
      ensures Valid() && at < |old(Channels())| && old(Channels())[at] == channel
      ensures Channels() == Without(old(Channels()), at)
      ensures Abs() == AfterDestroy(old(Abs()), at, channelSize)
      ensures channel !in Channels() && |Channels()| == |old(Channels())| - 1
      ensures forall k :: 0 <= k < |Channels()| ==> Channels()[k] == old(Channels())[if k < at then k else k + 1]
      ensures unsubscribed == if !channel.subscribed then None
                              else Some(if !connected then ERROR_NOT_CONNECTED
                                        else if !sent then ERROR_WEBSOCKET_ERROR else SUCCESS)
    {
      unsubscribed := None;
      if channel.subscribed {
        var result := channel.Unsubscribe(connected, sent, 0);
        unsubscribed := Some(result);
      }
      at := Remove(channel);
    }

    method Remove(channel: Channel) returns (ghost at: nat)
      requires Valid() && channel in Channels()
      modifies this`channelCount, this`allocatedBytes, channels
      ensures Valid() && at < |old(Channels())| && old(Channels())[at] == channel
      ensures Channels() == Without(old(Channels()), at)
      ensures Abs() == AfterDestroy(old(Abs()), at, channelSize)
      ensures channel !in Channels()
    {
      var i := IndexOf(channel);
      at := i;
      ShiftDown(i);
      channelCount := channelCount - 1;
      allocatedBytes := allocatedBytes - channelSize;
    }

    method IndexOf(channel: Channel) returns (i: nat)
      requires Valid() && channel in Channels()
      ensures i < channelCount && channels[i] == channel
    {
      i := 0;
      while channels[i] != channel
        invariant 0 <= i < channelCount && channel !in Channels()[..i] && channel in Channels()[i..]
        decreases channelCount - i
      {
        assert Channels()[i..] == [Channels()[i]] + Channels()[i + 1..];
        i := i + 1;
      }
    }

    method ShiftDown(i: nat)
      requires channels.Length == MAX_CHANNELS && i < channelCount <= MAX_CHANNELS
      modifies channels
      ensures forall k :: 0 <= k < i ==> channels[k] == old(channels[k])
      ensures forall k :: i <= k < channelCount - 1 ==> channels[k] == old(channels[k + 1])
    {
      var j := i;
      while j < channelCount - 1
        invariant i <= j <= channelCount - 1
        invariant forall k :: 0 <= k < i ==> channels[k] == old(channels[k])
        invariant forall k :: i <= k < j ==> channels[k] == old(channels[k + 1])
        invariant forall k :: j <= k < channelCount ==> channels[k] == old(channels[k])
      {
        channels[j] := channels[j + 1];
        j := j + 1;
      }
    }

    /** The drain loop of `oddsockets_destroy`: it ends, with the table empty. */
    method Destroy()
      requires Valid()
      modifies this`channelCount, this`allocatedBytes, channels
      ensures Valid() && Names() == [] && allocatedBytes == old(allocatedBytes) - old(channelCount) * channelSize
    {
      while channelCount > 0
        invariant Valid()
        invariant allocatedBytes - channelCount * channelSize == old(allocatedBytes - channelCount * channelSize)
        decreases channelCount
      {
        assert Channels()[0] == channels[0];
        ghost var at, unsubscribed := ChannelDestroy(channels[0], false, false);
      }
    }
  }

  // ---------------------------------------------------------------- every sequence of creates and destroys

  datatype Op = Create(name: string, memory: bool) | Destroy(i: nat)

  function Step(t: Table, op: Op, channelSize: nat): Table {
    match op
    case Create(name, memory) => AfterCreate(t, name, memory, channelSize)
    case Destroy(i) => if i < |t.names| then AfterDestroy(t, i, channelSize) else t
  }

  function After(t: Table, ops: seq<Op>, channelSize: nat): Table {
    if ops == [] then t else Step(After(t, ops[..|ops| - 1], channelSize), ops[|ops| - 1], channelSize)
  }

  function Empty(clientSize: nat): Table { Table([], clientSize, clientSize) }

  ghost predicate Sound(t: Table, clientSize: nat, channelSize: nat) {
    |t.names| <= MAX_CHANNELS &&
    (forall i :: 0 <= i < |t.names| ==> NameFits(t.names[i])) &&
    (forall i, j :: 0 <= i < j < |t.names| ==> t.names[i] != t.names[j]) &&
    t.bytes == clientSize + |t.names| * channelSize
  }

  /** Names stay distinct and short, at most 32, and the bytes are the client and its channels, always. */
  lemma {:induction false} AlwaysSound(ops: seq<Op>, clientSize: nat, channelSize: nat)
    ensures Sound(After(Empty(clientSize), ops, channelSize), clientSize, channelSize)
  {
    if ops != [] {
      var before := After(Empty(clientSize), ops[..|ops| - 1], channelSize);
      AlwaysSound(ops[..|ops| - 1], clientSize, channelSize);
      match ops[|ops| - 1]
      case Create(name, memory) => CreateKeepsSound(before, name, memory, clientSize, channelSize);
      case Destroy(i) => if i < |before.names| { DestroyKeepsSound(before, i, clientSize, channelSize); }
    }
  }

  lemma CreateKeepsSound(t: Table, name: string, memory: bool, clientSize: nat, channelSize: nat)
    requires Sound(t, clientSize, channelSize)
    ensures Sound(AfterCreate(t, name, memory, channelSize), clientSize, channelSize)
  {
    assert (|t.names| + 1) * channelSize == |t.names| * channelSize + channelSize;
  }

  lemma DestroyKeepsSound(t: Table, i: nat, clientSize: nat, channelSize: nat)
    requires Sound(t, clientSize, channelSize) && i < |t.names|
    ensures Sound(AfterDestroy(t, i, channelSize), clientSize, channelSize)
  {
    assert (|t.names| - 1) * channelSize == |t.names| * channelSize - channelSize;
    var names := Without(t.names, i);
    assert forall k :: 0 <= k < |names| ==> names[k] == t.names[if k < i then k else k + 1];
  }

  function Creates(names: seq<string>): seq<Op> {
    seq(|names|, i requires 0 <= i < |names| => Create(names[i], true))
  }

  /** Creating distinct short names fills the table with them in order, up to 32; all later ones are refused. */
  lemma {:induction false} CreatesAreKept(names: seq<string>, clientSize: nat, channelSize: nat)
    requires forall i :: 0 <= i < |names| ==> |names[i]| < 128
    requires forall i, j :: 0 <= i < j < |names| ==> names[i] != names[j]
    ensures After(Empty(clientSize), Creates(names), channelSize).names == if |names| <= 32 then names else names[..32]
  {
    if names != [] {
      var init, last := names[..|names| - 1], names[|names| - 1];
      assert Creates(names)[..|names| - 1] == Creates(init);
      CreatesAreKept(init, clientSize, channelSize);
      hide After, Creates;
      assert names == init + [last] && last !in init;
      LastCreate(names, clientSize, channelSize);
    }
  }

  lemma LastCreate(names: seq<string>, clientSize: nat, channelSize: nat)
    requires names != []
    ensures var init := names[..|names| - 1];
            After(Empty(clientSize), Creates(names), channelSize) ==
            AfterCreate(After(Empty(clientSize), Creates(init), channelSize), names[|names| - 1], true, channelSize)
  {
    var init := names[..|names| - 1];
    assert Creates(names)[..|names| - 1] == Creates(init);
    hide AfterCreate;
  }

  /** The peak is the running maximum of the bytes: reached at some point of the run, exceeded at none. */
  lemma {:induction false} PeakIsMaximum(ops: seq<Op>, clientSize: nat, channelSize: nat) returns (when: nat)
    ensures var peak := After(Empty(clientSize), ops, channelSize).peak;
            when <= |ops| && After(Empty(clientSize), ops[..when], channelSize).bytes == peak &&
            forall k :: 0 <= k <= |ops| ==> After(Empty(clientSize), ops[..k], channelSize).bytes <= peak
  {
    if ops == [] {
      when := 0;
    } else {
      var init := ops[..|ops| - 1];
      when := PeakIsMaximum(init, clientSize, channelSize);
      assert forall k :: 0 <= k <= |init| ==> init[..k] == ops[..k];
      assert ops[..|ops|] == ops;
      if After(Empty(clientSize), ops, channelSize).peak != After(Empty(clientSize), init, channelSize).peak {
        when := |ops|;
      }
    }
  }
}
