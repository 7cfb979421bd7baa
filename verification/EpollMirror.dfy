/** The index machine of src/EPollPoller.cc: kNew, kAdded and kDeleted mirror the kernel's epoll set. */
module EpollMirror {

  datatype Event = EPOLLIN | EPOLLPRI | EPOLLOUT

  const K_READ_EVENT: set<Event> := {EPOLLIN, EPOLLPRI}

  datatype Index = KNew | KAdded | KDeleted

  datatype Op = EPOLL_CTL_ADD | EPOLL_CTL_MOD | EPOLL_CTL_DEL

  class Channel {
    const fd: nat
    var events: set<Event>
    var index: Index
    ghost var told: set<Event>  // the mask at the last updateChannel call

    constructor (fd: nat)
      ensures this.fd == fd && events == {} && index == KNew
    {
      this.fd, this.events, this.index, this.told := fd, {}, KNew, {};
    }

    predicate IsKReadEvent()
      reads this
    {
      events == K_READ_EVENT
    }
  }

  class EPollPoller {
    var channels: map<nat, Channel>
    ghost var kernel: map<nat, set<Event>>
    ghost var users: set<Channel>  // the channels that use this poller

    /** No two channels share a descriptor. */
    ghost predicate DistinctFds()
      reads this
    {
      forall c, d :: c in users && d in users && c.fd == d.fd ==> c == d
    }

    /** New exactly when unknown to the map; added exactly when watched, and with the last mask. */
    ghost predicate Mirrors(c: Channel)
      reads this, c
    {
      && (c.index == KNew <==> c.fd !in channels)
      && (c.index == KAdded <==> c.fd in kernel)
      && (c.fd in channels ==> channels[c.fd] == c)
      && (c.fd in kernel ==> kernel[c.fd] == c.told)
    }

    ghost predicate Valid()
      reads this, users
    {
      && DistinctFds()
      && (forall c :: c in users ==> Mirrors(c))
      && (forall fd :: fd in channels ==> channels[fd] in users && channels[fd].fd == fd)
      && (forall fd :: fd in kernel ==> fd in channels)
    }

    constructor ()
      ensures Valid() && users == {} && kernel == map[]
    {
      channels, kernel, users := map[], map[], {};
    }

    /** A new channel on a descriptor nobody uses. */
    ghost method Join(c: Channel)
      requires Valid() && c.index == KNew && c !in users && forall d :: d in users ==> d.fd != c.fd
      modifies this`users
      ensures Valid() && users == old(users) + {c}
    {
      users := users + {c};
    }

    /** A channel that is new again stops using this poller, and its descriptor is free for another. */
    ghost method Leave(c: Channel)
      requires Valid() && c in users && c.index == KNew
      modifies this`users
      ensures Valid() && users == old(users) - {c} && forall d :: d in users ==> d.fd != c.fd
    {
      assert Mirrors(c);
      users := users - {c};
    }

    /** epoll_ctl; `legal` says that the kernel accepts the operation. */
    method Update(op: Op, channel: Channel) returns (ghost legal: bool)
      modifies this`kernel
      ensures legal <==> (op.EPOLL_CTL_ADD? <==> channel.fd !in old(kernel))
      ensures !legal ==> kernel == old(kernel)
      ensures legal && op.EPOLL_CTL_DEL? ==> kernel == old(kernel) - {channel.fd}
      ensures legal && !op.EPOLL_CTL_DEL? ==> kernel == old(kernel)[channel.fd := channel.events]
    {
      legal := op.EPOLL_CTL_ADD? <==> channel.fd !in kernel;
      kernel := if !legal then kernel
                else if op.EPOLL_CTL_DEL? then kernel - {channel.fd}
                else kernel[channel.fd := channel.events];
    }

    /**
     Registers a new or deleted channel, and modifies an added one, except that an added channel
     whose mask is exactly the read mask is deregistered.
     */
    method UpdateChannel(channel: Channel) returns (ghost legal: bool)
      requires Valid() && channel in users
      modifies this`channels, this`kernel, channel`index, channel`told
      ensures Valid() && legal && channel.told == channel.events
      ensures channel.index == if old(channel.index) == KAdded && channel.events == {EPOLLIN, EPOLLPRI} then KDeleted else KAdded
      ensures channel.fd in channels && forall fd :: fd != channel.fd ==>
                (fd in channels <==> fd in old(channels)) && (fd in kernel <==> fd in old(kernel))
      ensures channel.fd in kernel <==> channel.index == KAdded
    {
      assert Mirrors(channel);
      channel.told := channel.events;
      if channel.index == KNew || channel.index == KDeleted {
        if channel.index == KNew {
          channels := channels[channel.fd := channel];
        }
        channel.index := KAdded;
        legal := Update(EPOLL_CTL_ADD, channel);
      } else if channel.IsKReadEvent() {
        legal := Update(EPOLL_CTL_DEL, channel);
        channel.index := KDeleted;
      } else {
        legal := Update(EPOLL_CTL_MOD, channel);
      }
    }

    /** Asking twice for the read mask: the first call registers the channel, the second deregisters it. */
    method UpdateTwiceForReading(channel: Channel)
      requires Valid() && channel in users && channel.index == KNew && channel.events == {EPOLLIN, EPOLLPRI}
      modifies this`channels, this`kernel, channel`index, channel`told
      ensures Valid() && channel.index == KDeleted
      ensures channel.fd in channels && channel.fd !in kernel
    {
      var _ := UpdateChannel(channel);
      assert channel.fd in kernel;
      var _ := UpdateChannel(channel);
    }

    /** Forgets the channel; the kernel is asked only about a registered one. */
    method RemoveChannel(channel: Channel) returns (ghost legal: bool)
      requires Valid() && channel in users
      modifies this`channels, this`kernel, channel`index
      ensures Valid() && legal && channel.index == KNew
      ensures channel.fd !in channels && channel.fd !in kernel
      ensures forall fd :: fd != channel.fd ==> (fd in channels <==> fd in old(channels)) && (fd in kernel <==> fd in old(kernel))
    {
      assert Mirrors(channel);
      legal := true;
      channels := channels - {channel.fd};
      if channel.index == KAdded {
        legal := Update(EPOLL_CTL_DEL, channel);
      }
      channel.index := KNew;
    }
  }
}
