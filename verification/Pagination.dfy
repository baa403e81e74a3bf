/** Compiling configured views into display pages, and what the pages show. */
module Pagination {
  import opened Common
  import opened Protocol

  datatype ViewLayout =
    | OverviewLayout
    | ResourcesLayout
    | StorageLayout(filesystemIds: seq<string>, smartIds: seq<string>, filesystemsLeft: bool)
    | PowerNetworkLayout(upsLeft: bool)
    | GuestsLayout(paginate: bool, offset: nat, limit: nat)

  datatype ViewConfig = ViewConfig(title: string, layout: ViewLayout)

  datatype HttpOutput = HttpOutput(enabled: bool, hostname: string, port: nat, views: seq<string>)

  /** The validated configuration, as far as the manifests depend on it. */
  datatype Config = Config(
    views: map<string, ViewConfig>, lcdViews: seq<string>, http: Option<HttpOutput>, ntfy: NtfyConfig,
    filesystems: seq<string>, filesystemLabels: seq<string>, smartDevices: seq<string>,
    holdMs: nat, animationDelayMs: nat)

  const GUESTS_PER_PAGE := 4
  const U32_LIMIT := 0x1_0000_0000
  const U16_LIMIT := 0x1_0000

  function DivCeil(n: nat, d: nat): nat
    requires 0 < d
  {
    (n + d - 1) / d
  }

  function Max(a: int, b: int): int {
    if a >= b then a else b
  }

  function GuestPageCount(guests: nat): nat {
    DivCeil(Max(guests, 1), GUESTS_PER_PAGE)
  }

  function Skip<T>(s: seq<T>, n: nat): seq<T> {
    s[Min(n, |s|)..]
  }

  function Take<T>(s: seq<T>, n: nat): seq<T> {
    s[..Min(n, |s|)]
  }

  /** The `i`-th of the pieces of at most `size` elements. */
  function Chunk<T>(s: seq<T>, size: nat, i: nat): seq<T> {
    Take(Skip(s, i * size), size)
  }

  /** The first position of an element. */
  function Position<T(==)>(items: seq<T>, x: T): (r: Option<nat>)
    ensures r.Some? <==> x in items
    ensures r.Some? ==> r.value < |items| && items[r.value] == x && x !in items[..r.value]
  {
    if items == [] then None
    else if items[0] == x then Some(0)
    else
      match Position(items[1..], x)
      case None => None
      case Some(n) => Some(n + 1)
  }

  /** The index of every id, or nothing if one is unknown or out of the protocol's range. */
  function Resolved(ids: seq<string>, items: seq<string>): Option<seq<nat>>
  {
    if ids == [] then Some([])
    else
      var init, last := Resolved(ids[..|ids| - 1], items), Position(items, ids[|ids| - 1]);
      if init.None? || last.None? || last.value >= U32_LIMIT then None else Some(init.value + [last.value])
  }

  function GuestPages(title: string, count: nat): seq<DisplayView> {
    seq(count, i requires 0 <= i => DisplayView(title, Guests(i * GUESTS_PER_PAGE, GUESTS_PER_PAGE)))
  }

  function StoragePage(title: string, left: bool, filesystems: seq<nat>, smart: seq<nat>, i: nat): DisplayView {
    DisplayView(title, Storage(left, Chunk(filesystems, 3, i), Chunk(smart, 5, i)))
  }

  function StoragePageCount(filesystems: nat, smart: nat): nat {
    Max(Max(DivCeil(filesystems, 3), DivCeil(smart, 5)), 1)
  }

  function StoragePages(title: string, left: bool, filesystems: seq<nat>, smart: seq<nat>): seq<DisplayView> {
    seq(StoragePageCount(|filesystems|, |smart|), i requires 0 <= i => StoragePage(title, left, filesystems, smart, i))
  }

  /** The pages of one view when guests need `guestPages` pages. */
  function ViewPages(config: Config, id: string, guestPages: nat): Option<seq<DisplayView>>
  {
    if id !in config.views then None
    else
      var view := config.views[id];
      match view.layout
      case OverviewLayout => Some([DisplayView(view.title, Overview)])
      case ResourcesLayout => Some([DisplayView(view.title, Resources)])
      case PowerNetworkLayout(upsLeft) => Some([DisplayView(view.title, PowerNetwork(upsLeft))])
      case GuestsLayout(paginate, offset, limit) =>
        if !paginate then Some([DisplayView(view.title, Guests(offset, limit))])
        else if guestPages > 0 && (guestPages - 1) * GUESTS_PER_PAGE >= U32_LIMIT then None
        else Some(GuestPages(view.title, guestPages))
      case StorageLayout(filesystemIds, smartIds, left) =>
        var filesystems := Resolved(filesystemIds, config.filesystems);
        var smart := Resolved(smartIds, config.smartDevices);
        if filesystems.None? || smart.None? then None
        else Some(StoragePages(view.title, left, filesystems.value, smart.value))
  }

  function ViewsPages(config: Config, ids: seq<string>, guestPages: nat): Option<seq<DisplayView>>
  {
    if ids == [] then Some([])
    else
      var init, last := ViewsPages(config, ids[..|ids| - 1], guestPages), ViewPages(config, ids[|ids| - 1], guestPages);
      if init.None? || last.None? then None else Some(init.value + last.value)
  }

  function CompiledPages(config: Config, ids: seq<string>, guests: nat): Option<seq<DisplayView>> {
    if ids == [] then None else ViewsPages(config, ids, GuestPageCount(guests))
  }

  // ---------------------------------------------------------------- the loops

  method ResolveIndices(ids: seq<string>, items: seq<string>) returns (r: Option<seq<nat>>)
    ensures r == Resolved(ids, items)
  {
    var indices: seq<nat> := [];
    for k := 0 to |ids|
      invariant Resolved(ids[..k], items) == Some(indices)
    {
      assert ids[..k + 1][..k] == ids[..k];
      var index := Position(items, ids[k]);
      if index.None? || index.value >= U32_LIMIT {
        FailureSpreads(ids, items, k + 1);
        return None;
      }
      indices := indices + [index.value];
    }
    assert ids[..|ids|] == ids;
    return Some(indices);
  }

  lemma {:induction false} FailureSpreads(ids: seq<string>, items: seq<string>, k: nat)
    requires k <= |ids| && Resolved(ids[..k], items) == None
    ensures Resolved(ids, items) == None
    decreases |ids| - k
  {
    if k < |ids| {
      assert ids[..k + 1][..k] == ids[..k];
      FailureSpreads(ids, items, k + 1);
    } else {
      assert ids[..k] == ids;
    }
  }

  lemma {:induction false} ViewFailureSpreads(config: Config, ids: seq<string>, guestPages: nat, k: nat)
    requires k <= |ids| && ViewsPages(config, ids[..k], guestPages) == None
    ensures ViewsPages(config, ids, guestPages) == None
    decreases |ids| - k
  {
    if k < |ids| {
      assert ids[..k + 1][..k] == ids[..k];
      ViewFailureSpreads(config, ids, guestPages, k + 1);
    } else {
      assert ids[..k] == ids;
    }
  }

  method CompileView(config: Config, id: string, guests: nat) returns (r: Option<seq<DisplayView>>)
    ensures r == ViewPages(config, id, GuestPageCount(guests))
  {
    if id !in config.views {
      return None;
    }
    var view := config.views[id];
    var pages := [];
    match view.layout
    case OverviewLayout => return Some([DisplayView(view.title, Overview)]);
    case ResourcesLayout => return Some([DisplayView(view.title, Resources)]);
    case PowerNetworkLayout(upsLeft) => return Some([DisplayView(view.title, PowerNetwork(upsLeft))]);
    case GuestsLayout(paginate, offset, limit) =>
      if !paginate {
        return Some([DisplayView(view.title, Guests(offset, limit))]);
      }
      for index := 0 to GuestPageCount(guests)
        invariant pages == GuestPages(view.title, index)
        invariant index > 0 ==> (index - 1) * GUESTS_PER_PAGE < U32_LIMIT
      {
        if index * GUESTS_PER_PAGE >= U32_LIMIT {
          return None;
        }
        pages := pages + [DisplayView(view.title, Guests(index * GUESTS_PER_PAGE, GUESTS_PER_PAGE))];
      }
      return Some(pages);
    case StorageLayout(filesystemIds, smartIds, left) =>
      r := CompileStorage(view.title, left, filesystemIds, smartIds, config.filesystems, config.smartDevices);
  }

  method CompileStorage(title: string, left: bool, filesystemIds: seq<string>, smartIds: seq<string>,
                        filesystemItems: seq<string>, smartItems: seq<string>)
    returns (r: Option<seq<DisplayView>>)
    ensures r == var filesystems, smart := Resolved(filesystemIds, filesystemItems), Resolved(smartIds, smartItems);
                 if filesystems.None? || smart.None? then None
                 else Some(StoragePages(title, left, filesystems.value, smart.value))
  {
    var filesystems := ResolveIndices(filesystemIds, filesystemItems);
    if filesystems.None? {
      return None;
    }
    var smart := ResolveIndices(smartIds, smartItems);
    if smart.None? {
      return None;
    }
    var pages := [];
    for index := 0 to StoragePageCount(|filesystems.value|, |smart.value|)
      invariant pages == seq(index, i requires 0 <= i => StoragePage(title, left, filesystems.value, smart.value, i))
    {
      pages := pages + [StoragePage(title, left, filesystems.value, smart.value, index)];
    }
    return Some(pages);
  }

  method CompilePages(config: Config, ids: seq<string>, guests: nat) returns (r: Option<seq<DisplayView>>)
    ensures r == CompiledPages(config, ids, guests)
  {
    if ids == [] {
      return None;
    }
    var pages := [];
    for k := 0 to |ids|
      invariant ViewsPages(config, ids[..k], GuestPageCount(guests)) == Some(pages)
    {
      assert ids[..k + 1][..k] == ids[..k];
      var more := CompileView(config, ids[k], guests);
      if more.None? {
        ViewFailureSpreads(config, ids, GuestPageCount(guests), k + 1);
        return None;
      }
      pages := pages + more.value;
    }
    assert ids[..|ids|] == ids;
    return Some(pages);
  }

  // ---------------------------------------------------------------- what the pages show

  /** Chunks put side by side. */
  function Chunks<T>(s: seq<T>, size: nat, count: nat): seq<T>
  {
    if count == 0 then [] else Chunks(s, size, count - 1) + Chunk(s, size, count - 1)
  }

  lemma {:induction false} ChunksArePrefixes<T>(s: seq<T>, size: nat, count: nat)
    ensures Chunks(s, size, count) == s[..Min(count * size, |s|)]
  {
    if count > 0 {
      ChunksArePrefixes(s, size, count - 1);
      assert count * size == (count - 1) * size + size;
      NextPiece(s, (count - 1) * size, size);
    }
  }

  lemma NextPiece<T>(s: seq<T>, at: nat, size: nat)
    ensures s[..Min(at, |s|)] + Take(Skip(s, at), size) == s[..Min(at + size, |s|)]
  {
    var from, to := Min(at, |s|), Min(at + size, |s|);
    assert Take(Skip(s, at), size) == s[from..to];
  }

  /** `count` pieces of `d` cover `n` exactly when there are at least as many as needed. */
  lemma DivCeilCovers(n: nat, d: nat, count: nat)
    requires 0 < d
    ensures DivCeil(n, d) <= count <==> n <= count * d
  {
    var q := DivCeil(n, d);
    assert n <= q * d < n + d;
    if q <= count {
      assert q * d <= count * d;
    } else {
      assert (count + 1) * d <= q * d;
      assert (count + 1) * d == count * d + d;
    }
  }

  /** Chunk `i` is empty exactly when the pieces before it already cover the list. */
  lemma ChunkEmptiness<T>(s: seq<T>, size: nat, i: nat)
    requires 0 < size
    ensures |Chunk(s, size, i)| <= size
    ensures Chunk(s, size, i) == [] <==> DivCeil(|s|, size) <= i
  {
    DivCeilCovers(|s|, size, i);
  }

  function FilesystemsShown(pages: seq<DisplayView>): seq<nat>
  {
    if pages == [] then []
    else
      FilesystemsShown(pages[..|pages| - 1])
      + match pages[|pages| - 1].page case Storage(_, f, _) => f case _ => []
  }

  function SmartShown(pages: seq<DisplayView>): seq<nat>
  {
    if pages == [] then []
    else
      SmartShown(pages[..|pages| - 1])
      + match pages[|pages| - 1].page case Storage(_, _, d) => d case _ => []
  }

  lemma {:induction false} StorageShowsChunks(title: string, left: bool, f: seq<nat>, d: seq<nat>, count: nat)
    ensures var pages := seq(count, i requires 0 <= i => StoragePage(title, left, f, d, i));
      FilesystemsShown(pages) == Chunks(f, 3, count) && SmartShown(pages) == Chunks(d, 5, count)
  {
    if count > 0 {
      StorageShowsChunks(title, left, f, d, count - 1);
      var pages := seq(count, i requires 0 <= i => StoragePage(title, left, f, d, i));
      assert pages[..count - 1] == seq(count - 1, i requires 0 <= i => StoragePage(title, left, f, d, i));
    }
  }

  /** A piece is full as long as there is so much left. */
  lemma ChunkSize<T>(s: seq<T>, size: nat, i: nat)
    ensures |Chunk(s, size, i)| == Min(size, Max(0, |s| - size * i))
  {
    assert i * size == size * i;
    assert |Skip(s, i * size)| == Max(0, |s| - size * i);
  }

  /** Three filesystems and five SMART devices a page, and nothing left behind empty pages. */
  ghost predicate HoldsItsPart(page: DisplayPage, f: seq<nat>, d: seq<nat>, i: nat)
  {
    && page.Storage?
    && |page.filesystemIndices| == Min(3, Max(0, |f| - 3 * i)) && |page.smartIndices| == Min(5, Max(0, |d| - 5 * i))
    && (page.filesystemIndices == [] && page.smartIndices == [] ==> f == [] && d == [])
  }

  lemma StoragePageHolds(title: string, left: bool, f: seq<nat>, d: seq<nat>, i: nat)
    requires i < StoragePageCount(|f|, |d|)
    ensures HoldsItsPart(StoragePage(title, left, f, d, i).page, f, d, i)
  {
    ChunkSize(f, 3, i);
    ChunkSize(d, 5, i);
    ChunkEmptiness(f, 3, i);
    ChunkEmptiness(d, 5, i);
  }

  lemma StoragePagesCover(title: string, left: bool, f: seq<nat>, d: seq<nat>)
    ensures var pages := StoragePages(title, left, f, d); FilesystemsShown(pages) == f && SmartShown(pages) == d
  {
    var count := StoragePageCount(|f|, |d|);
    StorageShowsChunks(title, left, f, d, count);
    ChunksArePrefixes(f, 3, count);
    ChunksArePrefixes(d, 5, count);
    DivCeilCovers(|f|, 3, count);
    DivCeilCovers(|d|, 5, count);
    assert f[..|f|] == f && d[..|d|] == d;
  }

  /** The pages of a storage view show every filesystem and every SMART device once, in order, three
      and five a page as long as there are so many left, and there is no empty page but a single one
      when there is nothing to show. */
  lemma StorageViewConserves(title: string, left: bool, f: seq<nat>, d: seq<nat>)
    ensures var pages := StoragePages(title, left, f, d);
      && FilesystemsShown(pages) == f && SmartShown(pages) == d
      && (f == [] && d == [] ==> |pages| == 1)
      && forall i :: 0 <= i < |pages| ==> HoldsItsPart(pages[i].page, f, d, i)
  {
    StoragePagesCover(title, left, f, d);
    forall i | 0 <= i < StoragePageCount(|f|, |d|)
      ensures HoldsItsPart(StoragePages(title, left, f, d)[i].page, f, d, i)
    {
      StoragePageHolds(title, left, f, d, i);
    }
  }

  /** The guests the device lists on a page. */
  function RowsShown<T>(guests: seq<T>, page: DisplayPage): seq<T> {
    match page
    case Guests(offset, limit) => Take(Skip(guests, offset), Min(limit, GUESTS_PER_PAGE))
    case _ => []
  }

  function AllRows<T>(guests: seq<T>, pages: seq<DisplayView>): seq<T>
  {
    if pages == [] then [] else AllRows(guests, pages[..|pages| - 1]) + RowsShown(guests, pages[|pages| - 1].page)
  }

  lemma {:induction false} GuestRowsAreChunks<T>(guests: seq<T>, title: string, count: nat)
    ensures AllRows(guests, GuestPages(title, count)) == Chunks(guests, GUESTS_PER_PAGE, count)
  {
    if count > 0 {
      GuestRowsAreChunks(guests, title, count - 1);
      var pages := GuestPages(title, count);
      assert pages[..count - 1] == GuestPages(title, count - 1);
      GuestRowsAreAChunk(guests, count - 1);
      assert pages[count - 1].page == Guests((count - 1) * GUESTS_PER_PAGE, GUESTS_PER_PAGE);
    }
  }

  lemma GuestRowsAreAChunk<T>(guests: seq<T>, i: nat)
    ensures RowsShown(guests, Guests(i * GUESTS_PER_PAGE, GUESTS_PER_PAGE)) == Chunk(guests, GUESTS_PER_PAGE, i)
  {
  }

  /** The windows of a paginated guest view show every guest exactly once, in order, on the
      fewest pages: no page is empty when there are guests. */
  lemma GuestWindowsPartition<T>(guests: seq<T>, title: string)
    ensures var pages := GuestPages(title, GuestPageCount(|guests|));
      && AllRows(guests, pages) == guests
      && pages != []
      && forall i :: 0 <= i < |pages| && RowsShown(guests, pages[i].page) == [] ==> guests == []
  {
    var count := GuestPageCount(|guests|);
    GuestRowsAreChunks(guests, title, count);
    ChunksArePrefixes(guests, GUESTS_PER_PAGE, count);
    DivCeilCovers(Max(|guests|, 1), GUESTS_PER_PAGE, count);
    assert guests[..|guests|] == guests;
    forall i | 0 <= i < count
      ensures RowsShown(guests, GuestPages(title, count)[i].page) == [] ==> guests == []
    {
      ChunkEmptiness(guests, GUESTS_PER_PAGE, i);
    }
  }

  ghost predicate Paginates(config: Config, ids: seq<string>) {
    exists i :: 0 <= i < |ids| && ids[i] in config.views
                && config.views[ids[i]].layout.GuestsLayout? && config.views[ids[i]].layout.paginate
  }

  lemma {:induction false} MorePagesForMoreGuests(config: Config, ids: seq<string>, few: nat, many: nat)
    requires few <= many && ViewsPages(config, ids, few).Some? && ViewsPages(config, ids, many).Some?
    ensures |ViewsPages(config, ids, few).value| <= |ViewsPages(config, ids, many).value|
    ensures few < many && Paginates(config, ids)
        ==> |ViewsPages(config, ids, few).value| < |ViewsPages(config, ids, many).value|
  {
    if ids != [] {
      MorePagesForMoreGuests(config, ids[..|ids| - 1], few, many);
      if Paginates(config, ids) && !Paginates(config, ids[..|ids| - 1]) {
        var i :| 0 <= i < |ids| && ids[i] in config.views
                 && config.views[ids[i]].layout.GuestsLayout? && config.views[ids[i]].layout.paginate;
        assert i < |ids| - 1 ==> ids[..|ids| - 1][i] == ids[i];
      }
    }
  }

  /** The daemon recompiles exactly when it must: the pages depend on the number of guests
      only through the number of guest pages, and on that whenever a view is paginated. */
  lemma PagesChangeWithGuestPageCount(config: Config, ids: seq<string>, few: nat, many: nat)
    requires CompiledPages(config, ids, few).Some? && CompiledPages(config, ids, many).Some?
    ensures GuestPageCount(few) == GuestPageCount(many) ==>
      CompiledPages(config, ids, few) == CompiledPages(config, ids, many)
    ensures Paginates(config, ids) && CompiledPages(config, ids, few) == CompiledPages(config, ids, many)
        ==> GuestPageCount(few) == GuestPageCount(many)
  {
    if GuestPageCount(few) < GuestPageCount(many) {
      MorePagesForMoreGuests(config, ids, GuestPageCount(few), GuestPageCount(many));
    } else {
      MorePagesForMoreGuests(config, ids, GuestPageCount(many), GuestPageCount(few));
    }
  }

  /** The first position is in range exactly if the element occurs there at all. */
  lemma FoundInRange(items: seq<string>, x: string)
    ensures var p := Position(items, x);
      p.Some? && p.value < U32_LIMIT <==> x in Take(items, U32_LIMIT)
  {
    var p, known := Position(items, x), Take(items, U32_LIMIT);
    if p.Some? {
      if p.value < |known| {
        assert known[p.value] == x;
      } else {
        assert known == items[..p.value][..|known|];
      }
    }
  }

  lemma {:induction false} ResolvedIndicesPointBack(ids: seq<string>, items: seq<string>)
    ensures Resolved(ids, items).Some? <==> forall i :: 0 <= i < |ids| ==> ids[i] in Take(items, U32_LIMIT)
    ensures Resolved(ids, items).Some? ==>
      && |Resolved(ids, items).value| == |ids|
      && forall i :: 0 <= i < |ids| ==>
           && Resolved(ids, items).value[i] < |items| && items[Resolved(ids, items).value[i]] == ids[i]
           && ids[i] !in items[..Resolved(ids, items).value[i]]
  {
    if ids != [] {
      ResolvedIndicesPointBack(ids[..|ids| - 1], items);
      var init, last := ids[..|ids| - 1], ids[|ids| - 1];
      assert forall i :: 0 <= i < |init| ==> init[i] == ids[i];
      FoundInRange(items, last);
    }
  }

  // ---------------------------------------------------------------- the manifests

  /** The LCD manifest when guests need `guestPages` pages. */
  function DisplayForPages(config: Config, guestPages: nat): Option<DisplayConfig>
  {
    if config.holdMs >= U16_LIMIT || config.animationDelayMs >= U16_LIMIT || config.lcdViews == [] then None
    else
      match ViewsPages(config, config.lcdViews, guestPages)
      case None => None
      case Some(pages) =>
        if pages == [] || config.holdMs == 0 || config.animationDelayMs >= config.holdMs then None
        else Some(DisplayConfig(config.holdMs, config.animationDelayMs, config.filesystemLabels, pages))
  }

  /** The Wi-Fi manifest when guests need `guestPages` pages. */
  function NetworkForPages(config: Config, guestPages: nat): Option<NetworkConfig>
  {
    match config.http
    case None => Some(NetworkConfig(HttpConfig(false, "servatory", 80, []), config.ntfy))
    case Some(http) =>
      if http.views == [] then None
      else
        match ViewsPages(config, http.views, guestPages)
        case None => None
        case Some(pages) => Some(NetworkConfig(HttpConfig(http.enabled, http.hostname, http.port, pages), config.ntfy))
  }

  function DisplayFor(config: Config, guests: nat): Option<DisplayConfig> {
    DisplayForPages(config, GuestPageCount(guests))
  }

  function NetworkFor(config: Config, guests: nat): Option<NetworkConfig> {
    NetworkForPages(config, GuestPageCount(guests))
  }

  lemma {:induction false} ViewsHavePages(config: Config, ids: seq<string>, guests: nat)
    requires CompiledPages(config, ids, guests).Some?
    ensures |CompiledPages(config, ids, guests).value| >= |ids|
    decreases |ids|
  {
    if |ids| > 1 {
      ViewsHavePages(config, ids[..|ids| - 1], guests);
    }
    assert |ViewPages(config, ids[|ids| - 1], GuestPageCount(guests)).value| >= 1;
  }

  /** There is an LCD manifest exactly if its views compile and the hold time fits the device and
      leaves room for the animation; it has a page for every view at least. */
  lemma DisplayManifest(config: Config, guests: nat)
    ensures DisplayFor(config, guests).Some?
       <==> 0 < config.holdMs < U16_LIMIT && config.animationDelayMs < config.holdMs
            && CompiledPages(config, config.lcdViews, guests).Some?
    ensures DisplayFor(config, guests).Some? ==>
      var d := DisplayFor(config, guests).value;
      && d.shutdownHoldMs == config.holdMs && d.shutdownAnimationDelayMs == config.animationDelayMs
      && d.filesystemLabels == config.filesystemLabels
      && Some(d.pages) == CompiledPages(config, config.lcdViews, guests) && |d.pages| >= |config.lcdViews| > 0
  {
    if CompiledPages(config, config.lcdViews, guests).Some? {
      ViewsHavePages(config, config.lcdViews, guests);
    }
  }

  /** There is a Wi-Fi manifest exactly if there is no dashboard or its own views compile; it carries
      the notification settings, and the dashboard's own address and pages. */
  lemma NetworkManifest(config: Config, guests: nat)
    ensures NetworkFor(config, guests).Some?
       <==> config.http.None? || CompiledPages(config, config.http.value.views, guests).Some?
    ensures NetworkFor(config, guests).Some? ==>
      var n := NetworkFor(config, guests).value;
      && n.ntfy == config.ntfy
      && (config.http.None? ==> n.http == HttpConfig(false, "servatory", 80, []))
      && (config.http.Some? ==>
            && n.http.enabled == config.http.value.enabled && n.http.hostname == config.http.value.hostname
            && n.http.port == config.http.value.port
            && Some(n.http.pages) == CompiledPages(config, config.http.value.views, guests))
  {
  }

  // ---------------------------------------------------------------- the pages of each view

  /** These pages are what the layout asks for. */
  ghost predicate Lays(config: Config, layout: ViewLayout, guestPages: nat, pages: seq<DisplayView>)
  {
    match layout
    case OverviewLayout => |pages| == 1 && pages[0].page == Overview
    case ResourcesLayout => |pages| == 1 && pages[0].page == Resources
    case PowerNetworkLayout(upsLeft) => |pages| == 1 && pages[0].page == PowerNetwork(upsLeft)
    case GuestsLayout(paginate, offset, limit) =>
      if paginate then |pages| == guestPages && forall k :: 0 <= k < |pages| ==> pages[k].page == Guests(4 * k, 4)
      else |pages| == 1 && pages[0].page == Guests(offset, limit)
    case StorageLayout(filesystemIds, smartIds, left) =>
      && (forall k :: 0 <= k < |pages| ==> pages[k].page.Storage? && pages[k].page.filesystemsLeft == left)
      && Some(FilesystemsShown(pages)) == Resolved(filesystemIds, config.filesystems)
      && Some(SmartShown(pages)) == Resolved(smartIds, config.smartDevices)
  }

  /** Whether the layout can be laid out: every id is known, and every offset fits the protocol. */
  predicate CanLay(config: Config, layout: ViewLayout, guestPages: nat)
  {
    match layout
    case GuestsLayout(paginate, _, _) => paginate && guestPages > 0 ==> 4 * (guestPages - 1) < 0x1_0000_0000
    case StorageLayout(filesystemIds, smartIds, _) =>
      Resolved(filesystemIds, config.filesystems).Some? && Resolved(smartIds, config.smartDevices).Some?
    case _ => true
  }

  /** A view compiles exactly if it is known and can be laid out; all its pages carry its title, and
      they are what its layout asks for. */
  lemma ViewShows(config: Config, id: string, guestPages: nat)
    ensures ViewPages(config, id, guestPages).Some?
       <==> id in config.views && CanLay(config, config.views[id].layout, guestPages)
    ensures ViewPages(config, id, guestPages).Some? ==>
      var pages := ViewPages(config, id, guestPages).value;
      && (forall k :: 0 <= k < |pages| ==> pages[k].title == config.views[id].title)
      && Lays(config, config.views[id].layout, guestPages, pages)
  {
    if id in config.views {
      var view := config.views[id];
      match view.layout
      case GuestsLayout(_, _, _) => GuestViewShows(config, id, guestPages);
      case StorageLayout(_, _, _) => StorageViewShows(config, id, guestPages);
      case _ =>
    }
  }

  lemma GuestViewShows(config: Config, id: string, guestPages: nat)
    requires id in config.views && config.views[id].layout.GuestsLayout?
    ensures ViewPages(config, id, guestPages).Some? <==> CanLay(config, config.views[id].layout, guestPages)
    ensures ViewPages(config, id, guestPages).Some? ==>
      var pages := ViewPages(config, id, guestPages).value;
      && (forall k :: 0 <= k < |pages| ==> pages[k].title == config.views[id].title)
      && Lays(config, config.views[id].layout, guestPages, pages)
  {
    GuestPagesShow(config.views[id].title, guestPages);
  }

  lemma GuestPagesShow(title: string, count: nat)
    ensures var pages := GuestPages(title, count);
      |pages| == count && forall k :: 0 <= k < |pages| ==> pages[k].title == title && pages[k].page == Guests(4 * k, 4)
  {
  }

  lemma StorageViewShows(config: Config, id: string, guestPages: nat)
    requires id in config.views && config.views[id].layout.StorageLayout?
    ensures ViewPages(config, id, guestPages).Some? <==> CanLay(config, config.views[id].layout, guestPages)
    ensures ViewPages(config, id, guestPages).Some? ==>
      var pages := ViewPages(config, id, guestPages).value;
      && (forall k :: 0 <= k < |pages| ==> pages[k].title == config.views[id].title)
      && Lays(config, config.views[id].layout, guestPages, pages)
  {
    var view := config.views[id];
    if CanLay(config, view.layout, guestPages) {
      var f := Resolved(view.layout.filesystemIds, config.filesystems).value;
      var d := Resolved(view.layout.smartIds, config.smartDevices).value;
      StoragePagesShow(view.title, view.layout.filesystemsLeft, f, d);
      assert ViewPages(config, id, guestPages).value == StoragePages(view.title, view.layout.filesystemsLeft, f, d);
    }
  }

  lemma StoragePagesShow(title: string, left: bool, f: seq<nat>, d: seq<nat>)
    ensures var pages := StoragePages(title, left, f, d);
      && (forall k :: 0 <= k < |pages| ==>
            pages[k].title == title && pages[k].page.Storage? && pages[k].page.filesystemsLeft == left)
      && FilesystemsShown(pages) == f && SmartShown(pages) == d
  {
    StorageViewConserves(title, left, f, d);
  }

  /** How many pages these views have. */
  function PagesOf(config: Config, ids: seq<string>, guestPages: nat): nat
  {
    if ids == [] then 0
    else
      var last := ViewPages(config, ids[|ids| - 1], guestPages);
      PagesOf(config, ids[..|ids| - 1], guestPages) + if last.Some? then |last.value| else 0
  }

  /** The pages of the k-th view stand together, behind those of the views before it. */
  ghost predicate StandsAt(config: Config, ids: seq<string>, guestPages: nat, pages: seq<DisplayView>, k: nat)
    requires k < |ids|
  {
    var view, from := ViewPages(config, ids[k], guestPages), PagesOf(config, ids[..k], guestPages);
    view.Some? && from + |view.value| <= |pages| && pages[from..from + |view.value|] == view.value
  }

  lemma StillStandsAt(config: Config, ids: seq<string>, id: string, guestPages: nat, pages: seq<DisplayView>,
                      more: seq<DisplayView>, k: nat)
    requires k < |ids| && StandsAt(config, ids, guestPages, pages, k)
    ensures StandsAt(config, ids + [id], guestPages, pages + more, k)
  {
    assert (ids + [id])[..k] == ids[..k];
    var view, from := ViewPages(config, ids[k], guestPages).value, PagesOf(config, ids[..k], guestPages);
    assert (pages + more)[from..from + |view|] == pages[from..from + |view|];
  }

  lemma LastStandsAt(config: Config, ids: seq<string>, id: string, guestPages: nat, pages: seq<DisplayView>)
    requires |pages| == PagesOf(config, ids, guestPages) && ViewPages(config, id, guestPages).Some?
    ensures StandsAt(config, ids + [id], guestPages, pages + ViewPages(config, id, guestPages).value, |ids|)
  {
    assert (ids + [id])[..|ids|] == ids;
  }

  ghost predicate AllStand(config: Config, ids: seq<string>, guestPages: nat, pages: seq<DisplayView>) {
    && |pages| == PagesOf(config, ids, guestPages)
    && forall k :: 0 <= k < |ids| ==> StandsAt(config, ids, guestPages, pages, k)
  }

  lemma OneViewMore(config: Config, ids: seq<string>, id: string, guestPages: nat, pages: seq<DisplayView>)
    requires AllStand(config, ids, guestPages, pages) && ViewPages(config, id, guestPages).Some?
    ensures AllStand(config, ids + [id], guestPages, pages + ViewPages(config, id, guestPages).value)
  {
    var view := ViewPages(config, id, guestPages).value;
    assert (ids + [id])[..|ids|] == ids;
    LastStandsAt(config, ids, id, guestPages, pages);
    forall k | 0 <= k < |ids| ensures StandsAt(config, ids + [id], guestPages, pages + view, k) {
      StillStandsAt(config, ids, id, guestPages, pages, view, k);
    }
  }

  ghost predicate AllCompile(config: Config, ids: seq<string>, guestPages: nat) {
    forall k :: 0 <= k < |ids| ==> ViewPages(config, ids[k], guestPages).Some?
  }

  /** The views compile exactly if each does; then each one's pages stand together, behind those of
      the views before it, and there are no others. */
  lemma {:induction false} ViewsStandInOrder(config: Config, ids: seq<string>, guestPages: nat)
    ensures ViewsPages(config, ids, guestPages).Some? <==> AllCompile(config, ids, guestPages)
    ensures ViewsPages(config, ids, guestPages).Some? ==>
      AllStand(config, ids, guestPages, ViewsPages(config, ids, guestPages).value)
    decreases |ids|
  {
    if ids != [] {
      var init, last := ids[..|ids| - 1], ids[|ids| - 1];
      ViewsStandInOrder(config, init, guestPages);
      assert init + [last] == ids;
      assert AllCompile(config, ids, guestPages)
        <==> AllCompile(config, init, guestPages) && ViewPages(config, last, guestPages).Some?;
      if ViewsPages(config, ids, guestPages).Some? {
        OneViewMore(config, init, last, guestPages, ViewsPages(config, init, guestPages).value);
      }
    }
  }
}
