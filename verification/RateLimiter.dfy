/** The rate limiter object: two maps of mutable trackers, one per IP and one per account, each with the
    operations that touch it. Each method is one atomic step; the wall clock is an argument. */
module RateLimiting {
  import opened Clock
  import opened FixedWindow
  import IP = IPHistory
  import Acct = AccountLadder

  const BLOCKED_MESSAGE := "IP permanently blocked. Disable proxy or VPN to use this service."
  const THROTTLED_MESSAGE := "Too many requests. Please try again later."

  class IPRateTracker {
    var window5MinStart: int
    var window1MinStart: int
    var reqCount1Min: nat
    var reqCount5Min: nat
    var isBlocked: bool
    var lastActive: int

    constructor (now: int)
      ensures State() == IP.NewTracker(now)
    {
      window5MinStart, window1MinStart, lastActive := now, now, now;
      reqCount1Min, reqCount5Min, isBlocked := 0, 0, false;
    }

    ghost function State(): IP.IPState
      reads this
    {
      IP.IPState(window5MinStart, window1MinStart, reqCount1Min, reqCount5Min, isBlocked, lastActive)
    }

    /** The body of CheckIP once the tracker is held. */
    method Touch(now: int) returns (allowed: bool, message: string)
      modifies this
      ensures State() == IP.Touch(old(State()), now).0
      ensures allowed <==> IP.Touch(old(State()), now).1 == IP.Allowed
      ensures message == Message(IP.Touch(old(State()), now).1)
      ensures message == if allowed then ""
                         else if isBlocked then "IP permanently blocked. Disable proxy or VPN to use this service."
                         else "Too many requests. Please try again later."
    {
      lastActive := now;
      if isBlocked {
        return false, BLOCKED_MESSAGE;
      }
      if now - window5MinStart > IP.FIVE_MINUTES {
        window5MinStart := now;
        reqCount5Min := 0;
      }
      if now - window1MinStart > MINUTE {
        window1MinStart := now;
        reqCount1Min := 0;
      }
      reqCount1Min := reqCount1Min + 1;
      reqCount5Min := reqCount5Min + 1;
      if reqCount5Min > IP.MAX_PER_FIVE_MINUTES {
        isBlocked := true;
        return false, BLOCKED_MESSAGE;
      }
      if reqCount1Min > IP.MAX_PER_MINUTE {
        return false, THROTTLED_MESSAGE;
      }
      return true, "";
    }
  }

  function Message(v: IP.Verdict): string {
    match v
    case Allowed => ""
    case Throttled => THROTTLED_MESSAGE
    case Blocked => BLOCKED_MESSAGE
  }

  class AccountTracker {
    var failedAttempts: nat
    var lastFailed: int
    var isLocked: bool

    constructor (now: int)
      ensures State() == Acct.NewTracker(now)
    {
      failedAttempts, lastFailed, isLocked := 0, now, false;
    }

    ghost function State(): Acct.AccountState
      reads this
    {
      Acct.AccountState(failedAttempts, lastFailed, isLocked)
    }

    /** The body of RecordAccountAttempt once the tracker is held. */
    method Record(success: bool, now: int) returns (warningMsg: string, locked: bool)
      modifies this
      ensures State() == Acct.Record(old(State()), success, now).0
      ensures Acct.Reply(warningMsg, locked) == Acct.Record(old(State()), success, now).1
    {
      if isLocked {
        return "", true;
      }
      if success {
        failedAttempts := 0;
        return "", false;
      }
      if failedAttempts > 0 && now - lastFailed > HOUR {
        failedAttempts := 0;
      }
      failedAttempts := failedAttempts + 1;
      lastFailed := now;
      if failedAttempts >= 5 {
        isLocked := true;
        return "", true;
      }
      if failedAttempts == 3 {
        return "2 attempts remaining before lockout", false;
      }
      if failedAttempts == 4 {
        return "1 attempt remaining before lockout", false;
      }
      return "", false;
    }
  }

  /** The trackers of all IPs. */
  class IPTrackers {
    var entries: map<string, IPRateTracker>
    ghost var run: seq<IP.Event>   // everything that has happened to the map

    ghost function Table(): IP.Table
      reads this`entries, entries.Values
    {
      map k | k in entries :: entries[k].State()
    }

    /** No tracker is shared between keys. */
    ghost predicate Unshared()
      reads this`entries
    {
      forall k, k' :: k in entries && k' in entries && entries[k] == entries[k'] ==> k == k'
    }

    /** The map is what the run so far makes of it. */
    ghost predicate Valid()
      reads this, entries.Values
    {
      Unshared() && IP.Timed(run) && Table() == IP.After(run, true)
    }

    constructor ()
      ensures Valid() && run == [] && entries == map[]
    {
      entries, run := map[], [];
    }

    method LoadOrStore(ip: string, now: int) returns (tracker: IPRateTracker)
      requires Unshared()
      modifies this`entries
      ensures Unshared() && ip in entries && tracker == entries[ip]
      ensures fresh(entries.Values - old(entries.Values))
      ensures Table() == old(Table())[ip := IP.Lookup(old(Table()), ip, now)]
    {
      if ip !in entries {
        var created := new IPRateTracker(now);
        entries := entries[ip := created];
      }
      tracker := entries[ip];
    }

    method Charge(ip: string, now: int) returns (allowed: bool, message: string)
      requires Unshared()
      modifies this`entries, entries.Values
      ensures Unshared() && fresh(entries.Values - old(entries.Values))
      ensures Table() == IP.Step(old(Table()), IP.Check(ip, now))
      ensures allowed <==> IP.Touch(IP.Lookup(old(Table()), ip, now), now).1 == IP.Allowed
      ensures message == Message(IP.Touch(IP.Lookup(old(Table()), ip, now), now).1)
    {
      ghost var before := Table();
      var tracker := LoadOrStore(ip, now);
      ghost var loaded := Table();
      assert tracker.State() == loaded[ip] == IP.Lookup(before, ip, now);
      allowed, message := tracker.Touch(now);
      forall k | k in entries && k != ip ensures Table()[k] == loaded[k] {
        assert entries[k] != tracker;
      }
      IP.TableUpdated(loaded, Table(), ip);
    }

    /** The sweep reaching one key. */
    method Evict(ip: string, now: int)
      requires Unshared()
      modifies this`entries
      ensures Unshared() && entries.Values <= old(entries.Values)
      ensures Table() == IP.Step(old(Table()), IP.Sweep(ip, now))
      ensures entries == if && ip in old(entries) && !old(entries)[ip].isBlocked
                            && now - old(entries)[ip].lastActive > 600_000_000_000
                         then old(entries) - {ip} else old(entries)
    {
      if ip in entries {
        var tracker := entries[ip];
        assert Table()[ip] == tracker.State();
        if !tracker.isBlocked && now - tracker.lastActive > IP.TEN_MINUTES {
          entries := entries - {ip};
        }
      }
    }

    method Sweep(ip: string, now: int)
      requires Valid()
      modifies this`entries, this`run
      ensures Valid() && entries.Values <= old(entries.Values)
      ensures run == old(run) + [IP.Sweep(ip, now)]
      ensures Table() == IP.Step(old(Table()), IP.Sweep(ip, now))
      ensures entries == if && ip in old(entries) && !old(entries)[ip].isBlocked
                            && now - old(entries)[ip].lastActive > 600_000_000_000
                         then old(entries) - {ip} else old(entries)
    {
      IP.Extend(run, IP.Sweep(ip, now));
      Evict(ip, now);
      run := run + [IP.Sweep(ip, now)];
    }

    /** One tick of the cleanup loop, undisturbed: the trackers that are not blocked and have been idle for
        over ten minutes go and no others. */
    method SweepAll(now: int)
      requires Valid()
      modifies this`entries, this`run
      ensures Valid() && entries.Values <= old(entries.Values)
      ensures var before := old(Table());
              Table() == map k | k in before && (before[k].isBlocked || now - before[k].lastActive <= 600_000_000_000)
                           :: before[k]
    {
      ghost var before := Table();
      var keys := entries.Keys;
      while keys != {}
        invariant Valid() && entries.Values <= old(entries.Values) && keys <= before.Keys
        invariant Table() == IP.SweptBut(before, keys, now)
        decreases keys
      {
        var k :| k in keys;
        IP.SweepOneMore(before, keys, k, now);
        Sweep(k, now);
        keys := keys - {k};
      }
    }

    /** The answer is the verdict on all the requests this IP has ever made. */
    method CheckIP(ip: string, now: int) returns (allowed: bool, message: string)
      requires Valid()
      requires forall i :: 0 <= i < |run| ==> run[i].now <= now
      modifies this`entries, this`run, entries.Values
      ensures Valid() && fresh(entries.Values - old(entries.Values))
      ensures run == old(run) + [IP.Check(ip, now)]
      ensures var requests := IP.History(old(run), ip) + [now];
              if IP.EverOver(requests) then
                !allowed && message == "IP permanently blocked. Disable proxy or VPN to use this service."
              else if Load(requests, 60_000_000_000) > 5 then
                !allowed && message == "Too many requests. Please try again later."
              else
                allowed && message == ""
    {
      IP.Extend(run, IP.Check(ip, now));
      ghost var requests := IP.History(run, ip) + [now];
      IP.VerdictReads(requests, IP.VerdictOf(requests));
      allowed, message := Charge(ip, now);
      run := run + [IP.Check(ip, now)];
    }
  }

  /** The trackers of all accounts. */
  class AccountTrackers {
    var entries: map<string, AccountTracker>
    ghost var run: seq<Acct.Event>   // everything that has happened to the map

    ghost function Table(): Acct.Table
      reads this`entries, entries.Values
    {
      map k | k in entries :: entries[k].State()
    }

    /** No tracker is shared between keys. */
    ghost predicate Unshared()
      reads this`entries
    {
      forall k, k' :: k in entries && k' in entries && entries[k] == entries[k'] ==> k == k'
    }

    /** The map is what the run so far makes of it. */
    ghost predicate Valid()
      reads this, entries.Values
    {
      Unshared() && Acct.Timed(run) && Table() == Acct.After(run, true)
    }

    constructor ()
      ensures Valid() && run == [] && entries == map[]
    {
      entries, run := map[], [];
    }

    method LoadOrStore(email: string, now: int) returns (tracker: AccountTracker)
      requires Unshared()
      modifies this`entries
      ensures Unshared() && email in entries && tracker == entries[email]
      ensures fresh(entries.Values - old(entries.Values))
      ensures Table() == old(Table())[email := Acct.Lookup(old(Table()), email, now)]
    {
      if email !in entries {
        var created := new AccountTracker(now);
        entries := entries[email := created];
      }
      tracker := entries[email];
    }

    method Charge(email: string, success: bool, now: int) returns (warningMsg: string, locked: bool)
      requires Unshared()
      modifies this`entries, entries.Values
      ensures Unshared() && fresh(entries.Values - old(entries.Values))
      ensures Table() == Acct.Step(old(Table()), Acct.Attempt(email, success, now))
      ensures Acct.Reply(warningMsg, locked) == Acct.Record(Acct.Lookup(old(Table()), email, now), success, now).1
    {
      ghost var before := Table();
      var tracker := LoadOrStore(email, now);
      ghost var loaded := Table();
      assert tracker.State() == loaded[email] == Acct.Lookup(before, email, now);
      warningMsg, locked := tracker.Record(success, now);
      forall k | k in entries && k != email ensures Table()[k] == loaded[k] {
        assert entries[k] != tracker;
      }
      Acct.TableUpdated(loaded, Table(), email);
    }

    /** The sweep reaching one key. It does not look at the lock. */
    method Evict(email: string, now: int)
      requires Unshared()
      modifies this`entries
      ensures Unshared() && entries.Values <= old(entries.Values)
      ensures Table() == Acct.Step(old(Table()), Acct.Sweep(email, now))
      ensures entries == if email in old(entries) && now - old(entries)[email].lastFailed > 3_600_000_000_000
                         then old(entries) - {email} else old(entries)
    {
      if email in entries {
        var tracker := entries[email];
        assert Table()[email] == tracker.State();
        if now - tracker.lastFailed > HOUR {
          entries := entries - {email};
        }
      }
    }

    method Sweep(email: string, now: int)
      requires Valid()
      modifies this`entries, this`run
      ensures Valid() && entries.Values <= old(entries.Values)
      ensures run == old(run) + [Acct.Sweep(email, now)]
      ensures Table() == Acct.Step(old(Table()), Acct.Sweep(email, now))
      ensures entries == if email in old(entries) && now - old(entries)[email].lastFailed > 3_600_000_000_000
                         then old(entries) - {email} else old(entries)
    {
      Acct.Extend(run, Acct.Sweep(email, now));
      Evict(email, now);
      run := run + [Acct.Sweep(email, now)];
    }

    /** One tick of the cleanup loop, undisturbed: the trackers whose last failure is over an hour old go and
        no others. */
    method SweepAll(now: int)
      requires Valid()
      modifies this`entries, this`run
      ensures Valid() && entries.Values <= old(entries.Values)
      ensures var before := old(Table());
              Table() == map k | k in before && now - before[k].lastFailed <= 3_600_000_000_000 :: before[k]
    {
      ghost var before := Table();
      var keys := entries.Keys;
      while keys != {}
        invariant Valid() && entries.Values <= old(entries.Values) && keys <= before.Keys
        invariant Table() == Acct.SweptBut(before, keys, now)
        decreases keys
      {
        var k :| k in keys;
        Acct.SweepOneMore(before, keys, k, now);
        Sweep(k, now);
        keys := keys - {k};
      }
    }

    method IsAccountLocked(email: string) returns (locked: bool)
      requires Valid()
      ensures locked <==> Acct.LockedIn(Acct.After(run, true), email)
    {
      if email !in entries {
        return false;
      }
      assert Table()[email] == entries[email].State();
      return entries[email].isLocked;
    }

    method RecordAccountAttempt(email: string, success: bool, now: int) returns (warningMsg: string, locked: bool)
      requires Valid()
      requires forall i :: 0 <= i < |run| ==> run[i].now <= now
      modifies this`entries, this`run, entries.Values
      ensures Valid() && fresh(entries.Values - old(entries.Values))
      ensures run == old(run) + [Acct.Attempt(email, success, now)]
      ensures Acct.Reply(warningMsg, locked) == Acct.ReplyAfter(old(run), true, email, success, now)
    {
      ghost var e := Acct.Attempt(email, success, now);
      ghost var after := run + [e];
      Acct.Extend(run, e);
      ghost var m := Acct.After(after, true);
      warningMsg, locked := Charge(email, success, now);
      assert Table() == m;
      run := after;
    }
  }

  class RateLimiter {
    const ipMap: IPTrackers
    const accountMap: AccountTrackers

    constructor ()
      ensures ipMap.Valid() && accountMap.Valid() && fresh(ipMap) && fresh(accountMap)
      ensures ipMap.run == [] && accountMap.run == []
    {
      ipMap := new IPTrackers();
      accountMap := new AccountTrackers();
    }

    method CleanupTick(now: int)
      requires ipMap.Valid() && accountMap.Valid()
      modifies ipMap, accountMap
      ensures ipMap.Valid() && accountMap.Valid()
      ensures var before := old(ipMap.Table());
              ipMap.Table()
              == map k | k in before && (before[k].isBlocked || now - before[k].lastActive <= 600_000_000_000)
                   :: before[k]
      ensures var before := old(accountMap.Table());
              accountMap.Table()
              == map k | k in before && now - before[k].lastFailed <= 3_600_000_000_000 :: before[k]
    {
      ipMap.SweepAll(now);
      accountMap.SweepAll(now);
    }
  }
}
