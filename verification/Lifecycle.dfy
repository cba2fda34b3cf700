/** Loading and unloading the plugins: first_layer/source/plugin.c with the init and cleanup
    functions of both plugins and of the i8042 device. */
module Lifecycle {
  import opened Common
  import opened HookTable
  import opened FilterLog

  /** The single filter slot of the kernel's i8042 driver: empty, key_filter, or somebody else's. */
  datatype KeyFilter = NoKeyFilter | OwnKeyFilter | OtherKeyFilter(id: nat)

  /** Everything in the kernel that the plugins change and must put back. */
  datatype World<H> = World(irqs: Irqs, keyFilter: KeyFilter, filters: map<H, Filter>, log: seq<Entry<H>>)

  /** What one init call meets: which symbols the kernel knows, the interrupts of the two i8042 ports,
      the handlers to patch on the touchscreen device if there is one, and its pin group. */
  datatype Env<H> = Env(
    irqHandlerKnown: bool,
    portsKnown: bool,
    portIrqs: (int, int),
    device: Option<seq<H>>,
    pinGroupFound: bool)

  datatype Plugin = Keyboard | Touchscreen

  predicate Meets<H(==)>(w: World<H>, env: Env<H>) {
    WellFormed(w.irqs) && (env.device.Some? ==> forall h | h in env.device.value :: h in w.filters)
  }

  /** i8042_install_filter: refused while any filter is installed. */
  function InstallFilter(keyFilter: KeyFilter): (KeyFilter, int) {
    if keyFilter.NoKeyFilter? then (OwnKeyFilter, 0) else (keyFilter, -EBUSY)
  }

  /** i8042_remove_filter: only the filter that is installed can be removed. */
  function RemoveFilter(keyFilter: KeyFilter): KeyFilter {
    if keyFilter.OwnKeyFilter? then NoKeyFilter else keyFilter
  }

  function KeyboardInit<H>(w: World<H>, env: Env<H>): (r: (World<H>, int))
    requires WellFormed(w.irqs)
    ensures WellFormed(r.0.irqs) && r.0.filters == w.filters && r.0.log == w.log
  {
    if !env.irqHandlerKnown then (w, 1)
    else if !env.portsKnown || (env.portIrqs.0 != KEYBOARD_IRQ && env.portIrqs.1 != KEYBOARD_IRQ) then (w, 1)
    else
      var (keyFilter, refused) := InstallFilter(w.keyFilter);
      if refused != 0 then (w, 1)
      else
        var (irqs, failed) := Hook(w.irqs, KEYBOARD_IRQ, KbHook);
        if failed != 0 then (w.(keyFilter := RemoveFilter(keyFilter)), 1)
        else (w.(irqs := irqs, keyFilter := keyFilter), 0)
  }

  function KeyboardCleanup<H>(w: World<H>): (r: World<H>)
    requires WellFormed(w.irqs)
    ensures WellFormed(r.irqs)
  {
    w.(irqs := Unhook(w.irqs, KEYBOARD_IRQ), keyFilter := RemoveFilter(w.keyFilter))
  }

  function TouchscreenInit<H(==)>(w: World<H>, env: Env<H>): (r: (World<H>, int))
    requires Meets(w, env)
    ensures WellFormed(r.0.irqs) && r.0.filters.Keys == w.filters.Keys
  {
    var w1 := w.(log := []);
    if env.device.None? then (w1, 1)
    else
      var (filters, log) := PatchAll(w1.filters, w1.log, env.device.value);
      var w2 := w1.(filters := filters, log := log);
      if !env.pinGroupFound then (w2, 1)
      else
        var (irqs, failed) := Hook(w2.irqs, TOUCHSCREEN_IRQ, TouchHook);
        if failed != 0 then (w2, 1) else (w2.(irqs := irqs), 0)
  }

  function TouchscreenCleanup<H(==)>(w: World<H>): (r: World<H>)
    requires WellFormed(w.irqs)
    ensures WellFormed(r.irqs)
  {
    w.(irqs := Unhook(w.irqs, TOUCHSCREEN_IRQ), filters := Undo(w.filters, w.log), log := [])
  }

  function Init<H(==)>(w: World<H>, plugin: Plugin, env: Env<H>): (r: World<H>)
    requires Meets(w, env)
    ensures WellFormed(r.irqs) && r.filters.Keys == w.filters.Keys
  {
    match plugin
    case Keyboard => KeyboardInit(w, env).0
    case Touchscreen => TouchscreenInit(w, env).0
  }

  function Cleanup<H(==)>(w: World<H>, plugin: Plugin): (r: World<H>)
    requires WellFormed(w.irqs)
    ensures WellFormed(r.irqs)
  {
    match plugin
    case Keyboard => KeyboardCleanup(w)
    case Touchscreen => TouchscreenCleanup(w)
  }

  predicate AllMeet<H(==)>(w: World<H>, envs: seq<Env<H>>) {
    WellFormed(w.irqs) && forall i | 0 <= i < |envs| :: Meets(w, envs[i])
  }

  /** plugin_init: every registered plugin in turn, whatever the earlier ones returned. */
  function InitAll<H(==)>(w: World<H>, plugins: seq<Plugin>, envs: seq<Env<H>>): (r: World<H>)
    requires |plugins| == |envs| && AllMeet(w, envs)
    ensures WellFormed(r.irqs) && r.filters.Keys == w.filters.Keys
  {
    if plugins == [] then w
    else
      var n := |plugins| - 1;
      Init(InitAll(w, plugins[..n], envs[..n]), plugins[n], envs[n])
  }

  /** plugin_cleanup, in the same order. */
  function CleanupAll<H(==)>(w: World<H>, plugins: seq<Plugin>): (r: World<H>)
    requires WellFormed(w.irqs)
    ensures WellFormed(r.irqs)
  {
    if plugins == [] then w
    else
      var n := |plugins| - 1;
      Cleanup(CleanupAll(w, plugins[..n]), plugins[n])
  }

  // ----------------------------------------------------------- single inits

  /** A keyboard_init that fails, at whatever step, has changed nothing; one that succeeds has put the
      hook and the filter in place, and it succeeds exactly when every step can. */
  lemma KeyboardInitIsAllOrNothing<H>(w: World<H>, env: Env<H>)
    requires WellFormed(w.irqs)
    ensures var (w', r) := KeyboardInit(w, env);
            && (r == 0 <==> env.irqHandlerKnown && env.portsKnown
                            && (env.portIrqs.0 == KEYBOARD_IRQ || env.portIrqs.1 == KEYBOARD_IRQ)
                            && w.keyFilter.NoKeyFilter?
                            && KEYBOARD_IRQ in w.irqs.descs && w.irqs.orig[KEYBOARD_IRQ] == Null)
            && (r != 0 ==> w' == w)
            && (r == 0 ==> w'.keyFilter.OwnKeyFilter? && OnlyHooked(w.irqs, w'.irqs, KEYBOARD_IRQ, KbHook))
  {}

  /** The handler is in the descriptor of interrupt i, the one from before in its slot, and nothing else
      has changed. */
  predicate OnlyHooked(before: Irqs, after: Irqs, i: Irq, handler: Handler)
    requires WellFormed(before) && WellFormed(after)
  {
    && i in before.descs && after.descs.Keys == before.descs.Keys
    && after.descs[i] == Desc(handler, before.descs[i].irqsUnhandled, before.descs[i].other)
    && after.orig[i] == before.descs[i].handleIrq
    && (forall k | k in before.descs && k != i :: after.descs[k] == before.descs[k])
    && (forall k: Irq | k != i :: after.orig[k] == before.orig[k])
  }

  /** The log has one entry for each handler patched on the device, the last one's first. */
  predicate LogIsOf<H(==)>(log: seq<Entry<H>>, device: Option<seq<H>>) {
    match device
    case None => log == []
    case Some(targets) =>
      |log| == |targets| && forall i | 0 <= i < |targets| :: log[i].handler == targets[|targets| - 1 - i]
  }

  /** A touchscreen_init that succeeds has put the hook in place. One that fails after it has found its
      device leaves the handlers patched: every handler of the device has the module's filter, and only
      the log can give the old ones back. */
  lemma TouchscreenInitFailsPatched<H>(w: World<H>, env: Env<H>)
    requires Meets(w, env)
    ensures var (w', r) := TouchscreenInit(w, env);
            && (r == 0 <==> env.device.Some? && env.pinGroupFound
                            && TOUCHSCREEN_IRQ in w.irqs.descs && w.irqs.orig[TOUCHSCREEN_IRQ] == Null)
            && (forall h | h in w.filters :: w'.filters[h] ==
                  if env.device.Some? && h in env.device.value then TouchscreenFilter else w.filters[h])
            && (r == 0 ==> OnlyHooked(w.irqs, w'.irqs, TOUCHSCREEN_IRQ, TouchHook))
            && (r != 0 ==> w'.irqs == w.irqs)
            && w'.keyFilter == w.keyFilter
            && LogIsOf(w'.log, env.device)
  {
    if env.device.Some? { PatchMarksTargets(w.filters, [], env.device.value); }
  }

  // ------------------------------------------------------------------- pristine

  /** An interrupt the module can hook and give back: not hooked, and its handler not null. */
  predicate Hookable(t: Irqs, i: Irq)
    requires WellFormed(t)
  {
    t.orig[i] == Null && (i in t.descs ==> t.descs[i].handleIrq != Null)
  }

  /** As the module finds the kernel: its two interrupts as above, whatever the others are, and its own
      filter not installed. */
  predicate Pristine<H>(w: World<H>) {
    && WellFormed(w.irqs) && Hookable(w.irqs, KEYBOARD_IRQ) && Hookable(w.irqs, TOUCHSCREEN_IRQ)
    && !w.keyFilter.OwnKeyFilter?
    && w.log == []
  }

  // ------------------------------------------------------------ what init installs

  predicate KeyboardReady<H>(w0: World<H>, env: Env<H>) {
    && env.irqHandlerKnown && env.portsKnown && (env.portIrqs.0 == KEYBOARD_IRQ || env.portIrqs.1 == KEYBOARD_IRQ)
    && w0.keyFilter.NoKeyFilter? && KEYBOARD_IRQ in w0.irqs.descs
  }

  predicate TouchscreenReady<H>(w0: World<H>, env: Env<H>) {
    env.device.Some? && env.pinGroupFound && TOUCHSCREEN_IRQ in w0.irqs.descs
  }

  predicate SomeKeyboardReady<H>(w0: World<H>, plugins: seq<Plugin>, envs: seq<Env<H>>)
    requires |plugins| == |envs|
  {
    exists k :: 0 <= k < |plugins| && plugins[k].Keyboard? && KeyboardReady(w0, envs[k])
  }

  predicate SomeTouchscreenReady<H>(w0: World<H>, plugins: seq<Plugin>, envs: seq<Env<H>>)
    requires |plugins| == |envs|
  {
    exists k :: 0 <= k < |plugins| && plugins[k].Touchscreen? && TouchscreenReady(w0, envs[k])
  }

  predicate OnSomeDevice<H(==)>(plugins: seq<Plugin>, envs: seq<Env<H>>, h: H)
    requires |plugins| == |envs|
  {
    exists k :: 0 <= k < |plugins| && plugins[k].Touchscreen? && envs[k].device.Some? && h in envs[k].device.value
  }

  /** Interrupt i is hooked with the handler, or as it was. */
  predicate HookedIff(before: Irqs, after: Irqs, i: Irq, handler: Handler, hooked: bool)
    requires WellFormed(before) && WellFormed(after)
  {
    && (i in after.descs <==> i in before.descs)
    && if hooked then
         && i in before.descs
         && after.orig[i] == before.descs[i].handleIrq
         && after.descs[i] == Desc(handler, before.descs[i].irqsUnhandled, before.descs[i].other)
       else
         after.orig[i] == before.orig[i] && (i in before.descs ==> after.descs[i] == before.descs[i])
  }

  lemma ReadyMore<H>(w0: World<H>, plugins: seq<Plugin>, envs: seq<Env<H>>, h: H)
    requires |plugins| == |envs| > 0
    ensures var n := |plugins| - 1;
            && (SomeKeyboardReady(w0, plugins, envs) <==>
                  SomeKeyboardReady(w0, plugins[..n], envs[..n]) || (plugins[n].Keyboard? && KeyboardReady(w0, envs[n])))
            && (SomeTouchscreenReady(w0, plugins, envs) <==>
                  SomeTouchscreenReady(w0, plugins[..n], envs[..n])
                  || (plugins[n].Touchscreen? && TouchscreenReady(w0, envs[n])))
            && (OnSomeDevice(plugins, envs, h) <==>
                  OnSomeDevice(plugins[..n], envs[..n], h)
                  || (plugins[n].Touchscreen? && envs[n].device.Some? && h in envs[n].device.value))
  {
    var n := |plugins| - 1;
    assert forall k | 0 <= k < n :: plugins[..n][k] == plugins[k] && envs[..n][k] == envs[k];
  }

  /** plugin_init reaches every plugin: the keyboard's interrupt is hooked and its filter installed exactly
      if some keyboard plugin meets a kernel in which every step can succeed, the touchscreen's interrupt
      exactly if some touchscreen plugin does, and a handler has the module's filter exactly if it is on
      the device of some touchscreen plugin, or had it before. */
  lemma {:induction false} InitInstallsExactly<H>(w0: World<H>, plugins: seq<Plugin>, envs: seq<Env<H>>, h: H)
    requires |plugins| == |envs| && AllMeet(w0, envs) && Pristine(w0) && h in w0.filters
    ensures var w := InitAll(w0, plugins, envs);
            && HookedIff(w0.irqs, w.irqs, KEYBOARD_IRQ, KbHook, SomeKeyboardReady(w0, plugins, envs))
            && HookedIff(w0.irqs, w.irqs, TOUCHSCREEN_IRQ, TouchHook, SomeTouchscreenReady(w0, plugins, envs))
            && w.keyFilter == (if SomeKeyboardReady(w0, plugins, envs) then OwnKeyFilter else w0.keyFilter)
            && w.filters[h] == (if OnSomeDevice(plugins, envs, h) then TouchscreenFilter else w0.filters[h])
  {
    if plugins != [] {
      var n := |plugins| - 1;
      InitInstallsExactly(w0, plugins[..n], envs[..n], h);
      ReadyMore(w0, plugins, envs, h);
      var before := InitAll(w0, plugins[..n], envs[..n]);
      if plugins[n].Keyboard? {
        KeyboardInitIsAllOrNothing(before, envs[n]);
      } else {
        TouchscreenInitFailsPatched(before, envs[n]);
      }
    }
  }

  /** The plugins come in order: the log is that of the last touchscreen plugin. */
  lemma {:induction false} LogIsOfLast<H>(w0: World<H>, plugins: seq<Plugin>, envs: seq<Env<H>>, k: nat)
    requires |plugins| == |envs| && AllMeet(w0, envs) && k < |plugins| && plugins[k].Touchscreen?
    requires forall j | k < j < |plugins| :: !plugins[j].Touchscreen?
    ensures LogIsOf(InitAll(w0, plugins, envs).log, envs[k].device)
  {
    var n := |plugins| - 1;
    if k < n {
      assert plugins[n].Keyboard?;
      assert plugins[..n][k] == plugins[k] && envs[..n][k] == envs[k];
      LogIsOfLast(w0, plugins[..n], envs[..n], k);
    } else {
      TouchscreenInitFailsPatched(InitAll(w0, plugins[..n], envs[..n]), envs[n]);
    }
  }

  // --------------------------------------------------------------- what cleanup restores

  predicate KeyboardRestored<H>(w0: World<H>, w: World<H>)
    requires WellFormed(w0.irqs) && WellFormed(w.irqs)
  {
    Tracks(w0.irqs, w.irqs, KEYBOARD_IRQ, None) && w.keyFilter == w0.keyFilter
  }

  /** As far as a failing or succeeding keyboard_init can have gone. */
  predicate KeyboardPending<H>(w0: World<H>, w: World<H>)
    requires WellFormed(w0.irqs) && WellFormed(w.irqs)
  {
    && (Tracks(w0.irqs, w.irqs, KEYBOARD_IRQ, None) || Tracks(w0.irqs, w.irqs, KEYBOARD_IRQ, Some(KbHook)))
    && (w.keyFilter == w0.keyFilter || (w0.keyFilter.NoKeyFilter? && w.keyFilter.OwnKeyFilter?))
  }

  predicate TouchscreenRestored<H(==)>(w0: World<H>, w: World<H>)
    requires WellFormed(w0.irqs) && WellFormed(w.irqs)
  {
    Tracks(w0.irqs, w.irqs, TOUCHSCREEN_IRQ, None) && w.filters == w0.filters && w.log == []
  }

  predicate TouchscreenPending<H(==)>(w0: World<H>, w: World<H>)
    requires WellFormed(w0.irqs) && WellFormed(w.irqs)
  {
    && (Tracks(w0.irqs, w.irqs, TOUCHSCREEN_IRQ, None) || Tracks(w0.irqs, w.irqs, TOUCHSCREEN_IRQ, Some(TouchHook)))
    && Undo(w.filters, w.log) == w0.filters
  }

  predicate OthersUntouched<H>(w0: World<H>, w: World<H>)
    requires WellFormed(w0.irqs) && WellFormed(w.irqs)
  {
    && w.irqs.descs.Keys == w0.irqs.descs.Keys
    && (forall i | i in w.irqs.descs && i != KEYBOARD_IRQ && i != TOUCHSCREEN_IRQ :: w.irqs.descs[i] == w0.irqs.descs[i])
    && (forall i: Irq | i != KEYBOARD_IRQ && i != TOUCHSCREEN_IRQ :: w.irqs.orig[i] == w0.irqs.orig[i])
  }

  /** The state between the two loops, when the plugins in open may still be in place. */
  predicate Between<H(==)>(w0: World<H>, w: World<H>, open: set<Plugin>)
    requires WellFormed(w0.irqs)
  {
    && WellFormed(w.irqs) && OthersUntouched(w0, w)
    && KeyboardPending(w0, w) && TouchscreenPending(w0, w)
    && (Keyboard !in open ==> KeyboardRestored(w0, w))
    && (Touchscreen !in open ==> TouchscreenRestored(w0, w))
  }

  lemma InitKeepsBetween<H>(w0: World<H>, w: World<H>, open: set<Plugin>, plugin: Plugin, env: Env<H>)
    requires Pristine(w0) && Between(w0, w, open) && Meets(w, env)
    requires plugin.Touchscreen? ==> Touchscreen !in open
    ensures Between(w0, Init(w, plugin, env), open + {plugin})
  {
    if plugin.Touchscreen? && env.device.Some? {
      PatchKeepsUndo(w.filters, [], env.device.value);
    }
  }

  lemma CleanupKeepsBetween<H>(w0: World<H>, w: World<H>, open: set<Plugin>, plugin: Plugin)
    requires Pristine(w0) && Between(w0, w, open)
    ensures Between(w0, Cleanup(w, plugin), open - {plugin})
  {}

  function Kinds(plugins: seq<Plugin>): set<Plugin> {
    set p | p in plugins
  }

  lemma {:induction false} InitAllKeepsBetween<H>(w0: World<H>, plugins: seq<Plugin>, envs: seq<Env<H>>)
    requires |plugins| == |envs| && AllMeet(w0, envs) && Pristine(w0)
    requires multiset(plugins)[Touchscreen] <= 1
    ensures Between(w0, InitAll(w0, plugins, envs), Kinds(plugins))
  {
    if plugins == [] {
      assert Undo(w0.filters, []) == w0.filters;
    } else {
      var n := |plugins| - 1;
      assert plugins == plugins[..n] + [plugins[n]];
      assert Kinds(plugins) == Kinds(plugins[..n]) + {plugins[n]};
      InitAllKeepsBetween(w0, plugins[..n], envs[..n]);
      if plugins[n].Touchscreen? {
        assert multiset(plugins[..n])[Touchscreen] == 0;
      }
      InitKeepsBetween(w0, InitAll(w0, plugins[..n], envs[..n]), Kinds(plugins[..n]), plugins[n], envs[n]);
    }
  }

  lemma {:induction false} CleanupAllKeepsBetween<H>(w0: World<H>, w: World<H>, open: set<Plugin>, plugins: seq<Plugin>)
    requires Pristine(w0) && Between(w0, w, open)
    ensures Between(w0, CleanupAll(w, plugins), open - Kinds(plugins))
  {
    if plugins == [] {
      assert open - Kinds(plugins) == open;
    } else {
      var n := |plugins| - 1;
      assert plugins == plugins[..n] + [plugins[n]];
      assert open - Kinds(plugins) == open - Kinds(plugins[..n]) - {plugins[n]};
      CleanupAllKeepsBetween(w0, w, open, plugins[..n]);
      CleanupKeepsBetween(w0, CleanupAll(w, plugins[..n]), open - Kinds(plugins[..n]), plugins[n]);
    }
  }

  /** Whatever fails in whichever init, plugin_init followed by plugin_cleanup leaves the interrupt
      descriptors, the table of saved handlers, the i8042 filter slot and every input handler's filter
      as they were, as long as the touchscreen plugin is registered at most once. */
  lemma LifecycleRestores<H>(w0: World<H>, plugins: seq<Plugin>, envs: seq<Env<H>>)
    requires |plugins| == |envs| && AllMeet(w0, envs) && Pristine(w0)
    requires multiset(plugins)[Touchscreen] <= 1
    ensures CleanupAll(InitAll(w0, plugins, envs), plugins) == w0
  {
    var w := InitAll(w0, plugins, envs);
    InitAllKeepsBetween(w0, plugins, envs);
    CleanupAllKeepsBetween(w0, w, Kinds(plugins), plugins);
    assert Kinds(plugins) - Kinds(plugins) == {};
    var w' := CleanupAll(w, plugins);
    assert w'.irqs.descs == w0.irqs.descs;
    assert forall i: Irq :: w'.irqs.orig[i] == w0.irqs.orig[i];
    assert w'.irqs.orig == w0.irqs.orig;
  }

  ghost predicate AlwaysRestores(plugins: seq<Plugin>) {
    forall w: World<nat>, envs: seq<Env<nat>> | |envs| == |plugins| && AllMeet(w, envs) && Pristine(w) ::
      CleanupAll(InitAll(w, plugins, envs), plugins) == w
  }

  /** A second registration of the touchscreen plugin would lose the log of the first: its init
      empties the list and then saves the module's own filter. So the guarantee holds for a list of
      plugins if and only if the touchscreen plugin is in it at most once. main.c registers one plugin. */
  lemma RestoresIffTouchscreenOnce(plugins: seq<Plugin>)
    ensures AlwaysRestores(plugins) <==> multiset(plugins)[Touchscreen] <= 1
  {
    if multiset(plugins)[Touchscreen] <= 1 {
      forall w: World<nat>, envs: seq<Env<nat>> | |envs| == |plugins| && AllMeet(w, envs) && Pristine(w)
        ensures CleanupAll(InitAll(w, plugins, envs), plugins) == w
      {
        LifecycleRestores(w, plugins, envs);
      }
    } else {
      var envs := seq(|plugins|, i => PATCH_ONLY);
      assert AllMeet(OneHandler(), envs) && Pristine(OneHandler());
      TwiceIsTooOften(plugins, envs);
      var w := CleanupAll(InitAll(OneHandler(), plugins, envs), plugins);
      assert w.filters[0] == TouchscreenFilter && OneHandler().filters[0] == NoFilter;
      assert w != OneHandler();
    }
  }

  function NoSlots(): (s: seq<Handler>)
    ensures |s| == 512 && forall i | 0 <= i < 512 :: s[i] == Null
  {
    seq(512, i => Null)
  }

  /** A kernel with one input handler and no interrupts. */
  function OneHandler(): World<nat> {
    World(Irqs(map[], NoSlots()), NoKeyFilter, map[0 := NoFilter], [])
  }

  const PATCH_ONLY: Env<nat> := Env(false, false, (0, 0), Some([0]), false)

  lemma TwiceIsTooOften(plugins: seq<Plugin>, envs: seq<Env<nat>>)
    requires |plugins| == |envs| && forall i | 0 <= i < |envs| :: envs[i] == PATCH_ONLY
    requires multiset(plugins)[Touchscreen] >= 2
    ensures AllMeet(OneHandler(), envs)
    ensures CleanupAll(InitAll(OneHandler(), plugins, envs), plugins).filters == map[0 := TouchscreenFilter]
  {
    PatchedByCount(plugins, envs);
    StaysPatched(InitAll(OneHandler(), plugins, envs), plugins);
  }

  /** OneHandler after k inits of the touchscreen plugin that fail once they have patched. */
  function Patched(k: nat): World<nat> {
    if k == 0 then OneHandler()
    else
      var saved := if k == 1 then NoFilter else TouchscreenFilter;
      World(Irqs(map[], NoSlots()), NoKeyFilter, map[0 := TouchscreenFilter], [Entry(0, saved)])
  }

  lemma PatchStep(k: nat)
    ensures Meets(Patched(k), PATCH_ONLY)
    ensures Init(Patched(k), Touchscreen, PATCH_ONLY) == Patched(k + 1)
    ensures Init(Patched(k), Keyboard, PATCH_ONLY) == Patched(k)
  {
    OnePatch(Patched(k).filters);
  }

  lemma CountStep(plugins: seq<Plugin>)
    requires plugins != []
    ensures var n := |plugins| - 1;
            multiset(plugins)[Touchscreen] == multiset(plugins[..n])[Touchscreen] + if plugins[n].Touchscreen? then 1 else 0
  {
    var n := |plugins| - 1;
    assert plugins == plugins[..n] + [plugins[n]];
  }

  lemma {:induction false} PatchedByCount(plugins: seq<Plugin>, envs: seq<Env<nat>>)
    requires |plugins| == |envs| && forall i | 0 <= i < |envs| :: envs[i] == PATCH_ONLY
    ensures AllMeet(OneHandler(), envs)
    ensures InitAll(OneHandler(), plugins, envs) == Patched(multiset(plugins)[Touchscreen])
  {
    if plugins != [] {
      var n := |plugins| - 1;
      PatchedByCount(plugins[..n], envs[..n]);
      PatchStep(multiset(plugins[..n])[Touchscreen]);
      CountStep(plugins);
    }
  }

  lemma OnePatch(filters: map<nat, Filter>)
    requires 0 in filters
    ensures PatchAll(filters, [], [0]) == (filters[0 := TouchscreenFilter], [Entry(0, filters[0])])
  {
    PatchOneMore(filters, [], [], 0);
    var first: seq<Entry<nat>> := [Entry(0, filters[0])];
    assert [] + [0] == [0] && first + [] == first;
  }

  lemma {:induction false} StaysPatched(w: World<nat>, plugins: seq<Plugin>)
    requires WellFormed(w.irqs) && w.filters == map[0 := TouchscreenFilter]
    requires w.log == [] || w.log == [Entry(0, TouchscreenFilter)]
    ensures var w' := CleanupAll(w, plugins);
            && w'.filters == map[0 := TouchscreenFilter]
            && (w'.log == [] || w'.log == [Entry(0, TouchscreenFilter)])
  {
    if plugins != [] {
      StaysPatched(w, plugins[..|plugins| - 1]);
      var v := CleanupAll(w, plugins[..|plugins| - 1]);
      if v.log != [] {
        assert v.filters[0 := TouchscreenFilter] == v.filters && v.log[1..] == [];
        assert Undo(v.filters, v.log) == Undo(v.filters[0 := TouchscreenFilter], []);
      }
    }
  }

  // -------------------------------------------------------------------- in place

  /** What an init call of the module meets, with the device itself. */
  datatype Platform = Platform(irqHandlerKnown: bool, portsKnown: bool, portIrqs: (int, int), dev: InputDev?, pinGroupFound: bool)

  ghost function EnvOf(p: Platform): Env<InputHandler>
    reads p.dev, if p.dev == null then {} else set h: InputHandle | h in p.dev.handles
  {
    Env(p.irqHandlerKnown, p.portsKnown, p.portIrqs, if p.dev == null then None else Some(Targets(p.dev)), p.pinGroupFound)
  }

  lemma OneMoreInit<H>(w: World<H>, plugins: seq<Plugin>, envs: seq<Env<H>>, i: nat)
    requires |plugins| == |envs| && i < |plugins| && AllMeet(w, envs)
    ensures AllMeet(w, envs[..i]) && AllMeet(w, envs[..i + 1])
    ensures Meets(InitAll(w, plugins[..i], envs[..i]), envs[i])
    ensures InitAll(w, plugins[..i + 1], envs[..i + 1]) == Init(InitAll(w, plugins[..i], envs[..i]), plugins[i], envs[i])
  {
    assert plugins[..i + 1][..i] == plugins[..i] && envs[..i + 1][..i] == envs[..i];
    assert Meets(w, envs[i]);
  }

  const MAX_PLUGINS: nat := 128

  class Module {
    const hooks: Hooks
    const touchscreenLog: TouchscreenLog
    const plugins: array<Plugin>
    var pluginCount: nat
    var keyFilter: KeyFilter
    ghost const handlers: set<InputHandler>

    ghost predicate Valid()
      reads this, hooks, touchscreenLog
    {
      && hooks.Valid() && plugins.Length == MAX_PLUGINS && pluginCount <= MAX_PLUGINS - 1
      && forall e | e in touchscreenLog.Log() :: e.handler in handlers
    }

    ghost function View(): World<InputHandler>
      requires Valid()
      reads this, hooks, hooks.origIrqs, touchscreenLog, handlers
    {
      World(hooks.View(), keyFilter, Filters(handlers), touchscreenLog.Log())
    }

    ghost function Registered(): seq<Plugin>
      requires Valid()
      reads this, hooks, touchscreenLog, plugins
    {
      plugins[..pluginCount]
    }

    constructor (hooks: Hooks, keyFilter: KeyFilter, ghost handlers: set<InputHandler>)
      requires hooks.Valid()
      ensures Valid() && fresh(touchscreenLog) && fresh(plugins) && this.hooks == hooks && this.handlers == handlers
      ensures Registered() == [] && touchscreenLog.Log() == [] && this.keyFilter == keyFilter
    {
      this.hooks, this.keyFilter, this.handlers := hooks, keyFilter, handlers;
      touchscreenLog := new TouchscreenLog();
      plugins := new Plugin[MAX_PLUGINS](_ => Keyboard);
      pluginCount := 0;
    }

    /** One entry of the table is never used: the last registration accepted is the 127th. */
    method PluginRegister(plugin: Plugin) returns (r: int)
      requires Valid()
      modifies this`pluginCount, plugins
      ensures Valid()
      ensures if |old(Registered())| < 127 then r == 0 && Registered() == old(Registered()) + [plugin]
              else r == 1 && Registered() == old(Registered())
    {
      if pluginCount >= MAX_PLUGINS - 1 {
        return 1;
      }
      plugins[pluginCount] := plugin;
      pluginCount := pluginCount + 1;
      return 0;
    }

    /** port is the port whose data is kept for sending scancodes. */
    method KeyboardDeviceInit(p: Platform) returns (r: int, port: nat)
      ensures r == 0 <==> p.portsKnown && (p.portIrqs.0 == KEYBOARD_IRQ || p.portIrqs.1 == KEYBOARD_IRQ)
      ensures r == 0 ==> port == if p.portIrqs.0 == KEYBOARD_IRQ then 0 else 1
      ensures r != 0 ==> r == -ENODEV
    {
      r, port := -ENODEV, 0;
      if !p.portsKnown {
        return;
      }
      var ports := [p.portIrqs.0, p.portIrqs.1];
      for k := 0 to 2
        invariant r == -ENODEV && forall j | 0 <= j < k :: ports[j] != KEYBOARD_IRQ
      {
        if ports[k] == KEYBOARD_IRQ {
          assert k == 0 ==> ports[0] == p.portIrqs.0;
          assert k == 1 ==> ports[0] != KEYBOARD_IRQ && ports[1] == p.portIrqs.1;
          return 0, k;
        }
      }
      assert ports[0] != KEYBOARD_IRQ && ports[1] != KEYBOARD_IRQ;
    }

    /** hook_interrupt, and what it leaves of the module's view. */
    method HookOwn(i: Irq, handler: Handler) returns (failed: int)
      requires Valid()
      modifies hooks, hooks.origIrqs
      ensures Valid() && (hooks.View(), failed) == Hook(old(hooks.View()), i, handler)
      ensures View() == old(View()).(irqs := hooks.View())
      ensures failed == 0 <==> i in old(hooks.descs) && old(hooks.origIrqs[i]) == Null
      ensures failed == 0 ==> OnlyHooked(old(hooks.View()), hooks.View(), i, handler)
      ensures failed != 0 ==> hooks.View() == old(hooks.View())
    {
      failed := hooks.HookInterrupt(i, handler);
    }

    method InitKeyboard(p: Platform) returns (r: int)
      requires Valid()
      modifies this`keyFilter, hooks, hooks.origIrqs
      ensures Valid() && (View(), r) == KeyboardInit(old(View()), old(EnvOf(p)))
      ensures r == 0 <==> p.irqHandlerKnown && p.portsKnown
                          && (p.portIrqs.0 == KEYBOARD_IRQ || p.portIrqs.1 == KEYBOARD_IRQ)
                          && old(keyFilter).NoKeyFilter?
                          && KEYBOARD_IRQ in old(hooks.descs) && old(hooks.origIrqs[KEYBOARD_IRQ]) == Null
      ensures r == 0 ==> keyFilter.OwnKeyFilter? && OnlyHooked(old(hooks.View()), hooks.View(), KEYBOARD_IRQ, KbHook)
      ensures r != 0 ==> keyFilter == old(keyFilter) && hooks.View() == old(hooks.View())
    {
      if !p.irqHandlerKnown {
        return 1;
      }
      var failed, _ := KeyboardDeviceInit(p);
      if failed != 0 {
        return 1;
      }
      if !keyFilter.NoKeyFilter? {
        return 1;
      }
      keyFilter := OwnKeyFilter;
      failed := HookOwn(KEYBOARD_IRQ, KbHook);
      if failed != 0 {
        keyFilter := RemoveFilter(keyFilter);
        return 1;
      }
      return 0;
    }

    method CleanupKeyboard()
      requires Valid()
      modifies this`keyFilter, hooks, hooks.origIrqs
      ensures Valid() && View() == KeyboardCleanup(old(View()))
    {
      hooks.UnhookInterrupt(KEYBOARD_IRQ);
      keyFilter := RemoveFilter(keyFilter);
    }

    /** The call of modify_touchscreen_device. */
    method PatchDevice(dev: InputDev) returns (failed: int)
      requires Valid() && forall h | h in Targets(dev) :: h in handlers
      modifies touchscreenLog, handlers
      ensures Valid() && failed == 0
      ensures var (filters, log) := old(PatchAll(Filters(handlers), touchscreenLog.Log(), Targets(dev)));
              View() == old(View()).(filters := filters, log := log)
      ensures forall h | h in handlers :: h.filter == if Feeds(dev, h) then TouchscreenFilter else old(h.filter)
    {
      PatchedHandlers(Filters(handlers), touchscreenLog.Log(), Targets(dev));
      failed := touchscreenLog.ModifyTouchscreenDevice(dev, handlers);
    }

    method InitTouchscreen(p: Platform) returns (r: int)
      requires Valid() && Meets(View(), EnvOf(p))
      modifies hooks, hooks.origIrqs, touchscreenLog, handlers
      ensures Valid() && (View(), r) == TouchscreenInit(old(View()), old(EnvOf(p)))
      ensures r == 0 <==> p.dev != null && p.pinGroupFound
                          && TOUCHSCREEN_IRQ in old(hooks.descs) && old(hooks.origIrqs[TOUCHSCREEN_IRQ]) == Null
      ensures r == 0 ==> OnlyHooked(old(hooks.View()), hooks.View(), TOUCHSCREEN_IRQ, TouchHook)
      ensures r != 0 ==> hooks.View() == old(hooks.View())
      ensures forall h | h in handlers ::
                h.filter == if p.dev != null && Feeds(p.dev, h) then TouchscreenFilter else old(h.filter)
    {
      touchscreenLog.InitListHead();
      if p.dev == null {
        return 1;
      }
      var failed := PatchDevice(p.dev);
      if failed != 0 {
        return 1;
      }
      if !p.pinGroupFound {
        return 1;
      }
      failed := HookOwn(TOUCHSCREEN_IRQ, TouchHook);
      return if failed != 0 then 1 else 0;
    }

    method CleanupTouchscreen()
      requires Valid()
      modifies hooks, hooks.origIrqs, touchscreenLog, handlers
      ensures Valid() && View() == TouchscreenCleanup(old(View()))
    {
      var _ := touchscreenLog.ResetTouchscreenDevice(handlers);
      hooks.UnhookInterrupt(TOUCHSCREEN_IRQ);
    }

    ghost predicate Describes(envs: seq<Env<InputHandler>>, platforms: seq<Platform>)
      reads *
    {
      |envs| == |platforms| && forall i | 0 <= i < |envs| :: envs[i] == EnvOf(platforms[i])
    }

    /** The init member of plugin i. */
    method InitOne(i: nat, platforms: seq<Platform>, ghost envs: seq<Env<InputHandler>>)
      requires Valid() && i < pluginCount && i < |platforms|
      requires Describes(envs, platforms) && Meets(View(), envs[i])
      modifies this`keyFilter, hooks, hooks.origIrqs, touchscreenLog, handlers
      ensures Valid() && View() == Init(old(View()), plugins[i], envs[i])
      ensures Registered() == old(Registered()) && Describes(envs, platforms)
    {
      match plugins[i]
      case Keyboard => var _ := InitKeyboard(platforms[i]);
      case Touchscreen => var _ := InitTouchscreen(platforms[i]);
    }

    /** plugin_init: platforms says what each plugin's init meets, and envs is the same as a value. */
    method PluginInit(platforms: seq<Platform>, ghost envs: seq<Env<InputHandler>>) returns (r: int)
      requires Valid() && |platforms| == |Registered()|
      requires Describes(envs, platforms) && AllMeet(View(), envs)
      modifies this`keyFilter, hooks, hooks.origIrqs, touchscreenLog, handlers
      ensures Valid() && r == 0 && Registered() == old(Registered())
      ensures View() == InitAll(old(View()), old(Registered()), envs)
    {
      ghost var all, w := Registered(), View();
      var i := 0;
      while i < pluginCount
        invariant 0 <= i <= pluginCount && Valid() && Registered() == all
        invariant Describes(envs, platforms)
        invariant View() == InitAll(w, all[..i], envs[..i])
      {
        OneMoreInit(w, all, envs, i);
        InitOne(i, platforms, envs);
        i := i + 1;
      }
      assert all[..i] == all && envs[..i] == envs;
      return 0;
    }

    method PluginCleanup() returns (r: int)
      requires Valid()
      modifies this`keyFilter, hooks, hooks.origIrqs, touchscreenLog, handlers
      ensures Valid() && r == 0 && Registered() == old(Registered())
      ensures View() == CleanupAll(old(View()), old(Registered()))
    {
      ghost var all, w := Registered(), View();
      var i := 0;
      while i < pluginCount
        invariant 0 <= i <= pluginCount && Valid() && Registered() == all
        invariant View() == CleanupAll(w, all[..i])
      {
        assert all[..i + 1][..i] == all[..i];
        assert plugins[i] == all[i];
        match plugins[i] {
          case Keyboard => CleanupKeyboard();
          case Touchscreen => CleanupTouchscreen();
        }
        i := i + 1;
      }
      assert all[..i] == all;
      return 0;
    }
  }

  /** Loading and unloading the module, on the real tables and handlers. */
  method LoadAndUnload(m: Module, plugins: seq<Plugin>, platforms: seq<Platform>, ghost envs: seq<Env<InputHandler>>)
    requires m.Valid() && m.Registered() == [] && Pristine(m.View())
    requires |plugins| == |platforms| <= 127 && multiset(plugins)[Touchscreen] <= 1
    requires m.Describes(envs, platforms) && AllMeet(m.View(), envs)
    modifies m, m.plugins, m.hooks, m.hooks.origIrqs, m.touchscreenLog, m.handlers
    ensures m.Valid() && m.View() == old(m.View())
  {
    for i := 0 to |plugins|
      invariant m.Valid() && m.Registered() == plugins[..i] && m.View() == old(m.View())
      invariant m.Describes(envs, platforms)
    {
      var _ := m.PluginRegister(plugins[i]);
      assert plugins[..i + 1] == plugins[..i] + [plugins[i]];
    }
    assert plugins[..|plugins|] == plugins;
    LifecycleRestores(m.View(), plugins, envs);
    var _ := m.PluginInit(platforms, envs);
    var _ := m.PluginCleanup();
  }
}
