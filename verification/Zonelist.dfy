/** get_page_from_freelist and the zonelist cache that lets it skip zones thought to be full. */
module Zonelist {
  import opened PageAlloc

  /** What zone_reclaim may answer. */
  datatype Reclaim = NoScan | Full | Reclaimed

  /** How one zone answers when it is examined: cpuset, watermark, reclaim, watermark again, and the
      page buffered_rmqueue finds. The answers come from code outside this module. */
  datatype Answer = Answer(cpuset: bool, watermark: bool, reclaim: Reclaim, after: bool, page: Option<nat>)

  /** The request's flags and the system's configuration. */
  datatype Config = Config(numa: bool, onlineNodes: nat, allocCpuset: bool, noWatermarks: bool, reclaimMode: bool)

  /** Whether the zone gets as far as buffered_rmqueue. */
  predicate Admits(c: Config, a: Answer) {
    && (c.allocCpuset ==> a.cpuset)
    && (c.noWatermarks || a.watermark || (c.reclaimMode && a.reclaim == Reclaimed && a.after))
  }

  /** The zone yields a page when examined. */
  predicate Gives(c: Config, a: Answer) {
    Admits(c, a) && a.page.Some?
  }

  /** Unless watermarks are ignored a page comes from a zone that met its mark, at once or after a reclaim that
      worked; and one that met it at once, allowed by the cpuset, gives what it has. */
  lemma GivenAboveMark(c: Config, a: Answer)
    ensures Gives(c, a) ==> a.page.Some? && (c.allocCpuset ==> a.cpuset)
    ensures Gives(c, a) && !c.noWatermarks && !a.watermark ==> c.reclaimMode && a.reclaim == Reclaimed && a.after
    ensures a.cpuset && a.watermark && a.page.Some? ==> Gives(c, a)
    ensures Gives(c, a) <==> Gives(c.(reclaimMode := true), a.(reclaim := if c.reclaimMode then a.reclaim else Full))
  {}

  /** The plain search, without a cache: the page of the first zone that gives one. */
  function FirstPage(c: Config, answers: seq<Answer>): Option<nat> {
    if answers == [] then None
    else if Gives(c, answers[0]) then answers[0].page
    else FirstPage(c, answers[1..])
  }

  lemma {:induction false} FirstPageNone(c: Config, answers: seq<Answer>)
    ensures FirstPage(c, answers).None? <==> forall i :: 0 <= i < |answers| ==> !Gives(c, answers[i])
  {
    if answers != [] {
      FirstPageNone(c, answers[1..]);
      assert forall i :: 1 <= i < |answers| ==> answers[i] == answers[1..][i - 1];
    }
  }

  lemma {:induction false} FirstPageAt(c: Config, answers: seq<Answer>, k: nat)
    requires k < |answers| && Gives(c, answers[k]) && forall i :: 0 <= i < k ==> !Gives(c, answers[i])
    ensures FirstPage(c, answers) == answers[k].page
  {
    if k > 0 {
      assert forall i :: 0 <= i < k - 1 ==> answers[1..][i] == answers[i + 1];
      FirstPageAt(c, answers[1..], k - 1);
    }
  }

  class ZonelistCache {
    const zToN: seq<nat>
    var fullzones: set<nat>

    constructor (zToN: seq<nat>, fullzones: set<nat>)
      ensures this.zToN == zToN && this.fullzones == fullzones
    {
      this.zToN, this.fullzones := zToN, fullzones;
    }

    /** zlc_setup: an old record of full zones is dropped. */
    method Setup(stale: bool)
      modifies this
      ensures fullzones == if stale then {} else old(fullzones)
    {
      if stale {
        fullzones := {};
      }
    }

    /** zlc_zone_worth_trying. */
    predicate WorthTrying(i: nat, allowed: set<nat>)
      reads this
      requires i < |zToN|
    {
      zToN[i] in allowed && i !in fullzones
    }

    /** zlc_mark_zone_full. */
    method MarkFull(i: nat)
      modifies this
      ensures fullzones == old(fullzones) + {i}
    {
      fullzones := fullzones + {i};
    }
  }

  /** One zone examined: its page if it gives one, and whether it is to be marked full. */
  method Examine(c: Config, a: Answer) returns (page: Option<nat>, full: bool)
    ensures page == if Gives(c, a) then a.page else None
    ensures full <==>
              && page.None? && (c.allocCpuset ==> a.cpuset)
              && (!c.noWatermarks && !a.watermark && c.reclaimMode ==> a.reclaim != NoScan)
  {
    if c.allocCpuset && !a.cpuset {
      return None, false;
    }
    if !c.noWatermarks {
      if !a.watermark {
        if !c.reclaimMode {
          return None, true;
        }
        match a.reclaim {
          case NoScan => return None, false;
          case Full => return None, true;
          case Reclaimed =>
            if !a.after {
              return None, true;
            }
        }
      }
    }
    page := a.page;
    full := page.None?;
  }

  /** The page is that of a zone no earlier one of which has a page, but for those the cache says not to try. */
  ghost predicate FirstTried(c: Config, answers: seq<Answer>, zToN: seq<nat>, allowed: set<nat>, full: set<nat>, page: Option<nat>)
    requires |zToN| == |answers|
  {
    exists i :: 0 <= i < |answers| && Gives(c, answers[i]) && page == answers[i].page
      && forall k :: 0 <= k < i && Gives(c, answers[k]) ==> zToN[k] !in allowed || k in full
  }

  /** Only zones that gave no page are newly marked full. */
  ghost predicate MarksRight(c: Config, answers: seq<Answer>, before: set<nat>, after: set<nat>) {
    forall x :: x in after ==> x in before || (x < |answers| && !Gives(c, answers[x]))
  }

  /** One scan of the zonelist, while no zone has given a page. */
  method Scan(c: Config, answers: seq<Answer>, cache: ZonelistCache?, stale: bool, allowed: set<nat>, wasActive: bool, wasSetup: bool)
    returns (page: Option<nat>, active: bool, didSetup: bool)
    requires (cache != null ==> |cache.zToN| == |answers|) && (wasActive ==> wasSetup)
    modifies cache
    ensures (active ==> didSetup) && (wasSetup ==> didSetup && active == wasActive)
    ensures didSetup && !wasSetup ==> c.numa && c.onlineNodes > 1
    ensures page.None? && !active ==> FirstPage(c, answers).None?
    ensures page.Some? && ((!wasActive && wasSetup) || cache == null) ==> page == FirstPage(c, answers)
    ensures page.Some? ==> exists i :: 0 <= i < |answers| && Gives(c, answers[i]) && page == answers[i].page
    ensures cache != null && page.Some? ==> FirstTried(c, answers, cache.zToN, allowed, old(cache.fullzones), page)
    ensures cache != null ==> MarksRight(c, answers, old(cache.fullzones), cache.fullzones)
  {
    hide Admits;
    page, active, didSetup := None, wasActive, wasSetup;
    var i := 0;
    while i < |answers| && page.None?
      invariant i <= |answers|
      invariant (active ==> didSetup) && (wasSetup ==> didSetup && active == wasActive)
      invariant didSetup && !wasSetup ==> c.numa && c.onlineNodes > 1
      invariant page.Some? ==> i > 0 && Gives(c, answers[i - 1]) && page == answers[i - 1].page
      invariant forall k :: 0 <= k < (if page.Some? then i - 1 else i) && Gives(c, answers[k]) ==>
                  && active && cache != null
                  && (cache.zToN[k] !in allowed || k in old(cache.fullzones))
      invariant cache != null ==> MarksRight(c, answers, old(cache.fullzones), cache.fullzones)
      invariant cache != null ==> forall x :: x in cache.fullzones ==> x in old(cache.fullzones) || x < i
    {
      if c.numa && active && cache != null && !cache.WorthTrying(i, allowed) {
        i := i + 1;
        continue;
      }
      var full: bool;
      page, full := Examine(c, answers[i]);
      if page.None? {
        if full && c.numa && cache != null {
          cache.MarkFull(i);
        }
        if c.numa && !didSetup && c.onlineNodes > 1 {
          if cache != null {
            cache.Setup(stale);
          }
          active, didSetup := true, true;
        }
      }
      i := i + 1;
    }
    FirstPageNone(c, answers);
    if page.Some? && (forall k :: 0 <= k < i - 1 ==> !Gives(c, answers[k])) { FirstPageAt(c, answers, i - 1); }
  }

  /** get_page_from_freelist. first and second are the zones' answers in the first and a second scan;
      a zonelist may have no cache. Whatever the cache holds, there are at most two scans; a page is
      the page of the first zone that gives one, but for zones the cache says not to try; and there is no
      page only when every zone of the last scan was examined and gave none. */
  method GetPage(c: Config, first: seq<Answer>, second: seq<Answer>, cache: ZonelistCache?, stale: bool, allowed: set<nat>)
    returns (page: Option<nat>, scans: nat)
    requires |first| == |second| && (cache != null ==> |cache.zToN| == |first|)
    modifies cache
    ensures 1 <= scans <= 2
    ensures var last := if scans == 1 then first else second;
            && (page.None? ==> forall i :: 0 <= i < |last| ==> !Gives(c, last[i]))
            && (page.Some? ==> exists i :: 0 <= i < |last| && Gives(c, last[i]) && page == last[i].page)
            && (scans == 2 ==> page == FirstPage(c, second))
    ensures cache == null && scans == 1 ==> page == FirstPage(c, first)
    ensures cache != null && scans == 1 && page.Some? ==> FirstTried(c, first, cache.zToN, allowed, old(cache.fullzones), page)
    ensures cache != null && scans == 1 ==> MarksRight(c, first, old(cache.fullzones), cache.fullzones)
    // The cache is only a speed-up: with zones that answer alike in both scans, a page is found
    // exactly when the plain search finds one.
    ensures first == second ==> (page.None? <==> FirstPage(c, first).None?)
    ensures scans == 2 ==> c.numa && c.onlineNodes > 1
  {
    hide Gives, FirstTried, MarksRight;
    FirstPageNone(c, first);
    FirstPageNone(c, second);
    page, scans := None, 0;
    var active, didSetup, again := false, false, true;
    while again
      invariant active ==> didSetup
      invariant again ==> page.None? && (scans == 0 || (scans == 1 && didSetup && !active))
      invariant !again ==> 1 <= scans <= 2
      invariant didSetup || scans == 2 ==> c.numa && c.onlineNodes > 1
      invariant scans == 0 && cache != null ==> unchanged(cache)
      invariant !again ==>
                  var last := if scans == 1 then first else second;
                  && (page.None? ==> FirstPage(c, last).None?)
                  && (page.Some? ==> exists i :: 0 <= i < |last| && Gives(c, last[i]) && page == last[i].page)
                  && (scans == 2 || cache == null ==> page == FirstPage(c, last))
      invariant !again && cache != null && scans == 1 ==>
                  && MarksRight(c, first, old(cache.fullzones), cache.fullzones)
                  && (page.Some? ==> FirstTried(c, first, cache.zToN, allowed, old(cache.fullzones), page))
      decreases 2 - scans, again
    {
      page, active, didSetup := Scan(c, if scans == 0 then first else second, cache, stale, allowed, active, didSetup);
      scans := scans + 1;
      again := c.numa && page.None? && active;
      active := false;
    }
  }
}
