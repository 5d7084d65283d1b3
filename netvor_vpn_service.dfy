/** `NetvorVpnService`: the foreground VPN service that owns one tunnel session. It holds three
    optional handles (the tun interface, the xray process, the tun2socks process), the traffic
    baselines and the start time of the session, and publishes the session's status on the
    bus. The operating-system calls it makes become inputs (what `establish()` returns, whether
    a process starts, the traffic counters, the clock) and a trace of effects (interface
    established, process started or destroyed, interface closed, service stopped). */
module NetvorVpnService {
  import opened Wrappers
  import opened Text
  import opened JvmInt
  import opened FileSystem
  import opened Processes
  import opened Bus
  import ConfigRepository
  import XrayAssetManager
  import Tun2SocksManager

  /** The intent actions the service understands. */
  const ActionStart := "com.netvor.action.START"
  const ActionStop := "com.netvor.action.STOP"

  /** `Service.START_NOT_STICKY`, which `onStartCommand` returns on both paths. */
  const StartNotSticky := 2

  /** The SOCKS endpoint the service points tun2socks at. */
  const ServiceSocksAddr := "127.0.0.1:10808"

  /** An operating-system call the service has made. */
  datatype Effect =
    | Establish(fd: int)
    | Start(process: ProcessSpec)
    | Destroy(process: ProcessSpec)
    | Close(fd: int)
    | StopSelf

  /** What `builder.establish()` does: hands out an interface, returns null (the app is not
      prepared or was revoked), or throws. */
  datatype Establishment = Established(fd: int) | Refused | Throws

  /** Everything the start sequence learns from the platform. `xrayStarts` and
      `tun2socksStarts` say whether `ProcessBuilder.start()` succeeds; `rxRaw`, `txRaw` and
      `nowMs` are what `TrafficStats` and `System.currentTimeMillis()` return. */
  datatype StartEnv = StartEnv(establish: Establishment, xrayStarts: bool, tun2socksStarts: bool, rxRaw: int, txRaw: int, nowMs: int)

  /** The application context the service and its managers share. */
  datatype Context = Context(filesDir: string, codeCacheDir: string, supportedAbis: Option<seq<string>>, assets: map<string, string>)

  /** The service's fields, the bus status, the private storage and the effects so far. */
  datatype State = State(
    vpnInterface: Option<int>,
    xrayProcess: Option<ProcessSpec>,
    tun2socksProcess: Option<ProcessSpec>,
    startRxBytes: int,
    startTxBytes: int,
    startTimeMs: int,
    status: Status,
    files: Files,
    effects: seq<Effect>)

  /** How a step ends: normally, or by throwing, with the state at that point. */
  datatype Outcome = Done(state: State) | Threw(state: State)

  // ------------------------------------------------------------------------------------------
  // stopVpn
  // ------------------------------------------------------------------------------------------

  function DestroyEach(p: Option<ProcessSpec>): seq<Effect>
  {
    if p.Some? then [Destroy(p.value)] else []
  }

  function CloseEach(fd: Option<int>): seq<Effect>
  {
    if fd.Some? then [Close(fd.value)] else []
  }

  /** `stopVpn()`: destroys tun2socks, then xray, closes the interface (each only when held,
      each failure swallowed), clears the three handles, publishes the disconnected status
      and stops the service. */
  function StopOutcome(s: State): State
  {
    s.(tun2socksProcess := None, xrayProcess := None, vpnInterface := None, status := Disconnected,
       effects := s.effects + DestroyEach(s.tun2socksProcess) + DestroyEach(s.xrayProcess)
                  + CloseEach(s.vpnInterface) + [StopSelf])
  }

  /** After a stop the session holds nothing and reads as disconnected; every handle it held
      was released, the processes before the interface; the baselines and the storage are
      untouched. */
  lemma StopReleasesEverything(s: State)
    ensures var t := StopOutcome(s);
            t.vpnInterface == None && t.xrayProcess == None && t.tun2socksProcess == None
            && t.status == Status(false, 0, 0, 0)
            && t.files == s.files && t.startRxBytes == s.startRxBytes && t.startTxBytes == s.startTxBytes
            && t.startTimeMs == s.startTimeMs
            && (s.tun2socksProcess.Some? ==> Destroy(s.tun2socksProcess.value) in t.effects[|s.effects|..])
            && (s.xrayProcess.Some? ==> Destroy(s.xrayProcess.value) in t.effects[|s.effects|..])
            && (s.vpnInterface.Some? ==> Close(s.vpnInterface.value) in t.effects[|s.effects|..])
            && t.effects[|t.effects| - 1] == StopSelf
  {
    var t := StopOutcome(s);
    var added := DestroyEach(s.tun2socksProcess) + DestroyEach(s.xrayProcess) + CloseEach(s.vpnInterface) + [StopSelf];
    assert t.effects[|s.effects|..] == added;
  }

  /** A second stop releases nothing more: it only publishes the same status and stops the
      service again. */
  lemma StopIdempotent(s: State)
    ensures var t := StopOutcome(s);
            StopOutcome(t) == t.(effects := t.effects + [StopSelf])
  {
    var t := StopOutcome(s);
    assert t.effects + DestroyEach(None) + DestroyEach(None) + CloseEach(None) + [StopSelf] == t.effects + [StopSelf];
  }

  // ------------------------------------------------------------------------------------------
  // setupTun
  // ------------------------------------------------------------------------------------------

  /** `setupTun()`: returns at once when an interface is held; otherwise builds one (session
      `Netvor`, address `10.10.0.2/32`, DNS `1.1.1.1`, the default route, this package
      excluded) and keeps what `establish()` returns, which may be null. */
  function SetupTunOutcome(s: State, e: Establishment): Outcome
  {
    if s.vpnInterface.Some? then Done(s)
    else
      match e
      case Established(fd) => Done(s.(vpnInterface := Some(fd), effects := s.effects + [Establish(fd)]))
      case Refused => Done(s)
      case Throws => Threw(s)
  }

  /** Setting up the tunnel changes nothing but the interface handle and then only when none
      was held; it throws only when it tried to establish one and that threw. */
  lemma SetupTunCases(s: State, e: Establishment)
    ensures var r := SetupTunOutcome(s, e);
            (s.vpnInterface.Some? ==> r == Done(s))
            && (r.Threw? <==> s.vpnInterface.None? && e.Throws?)
            && (s.vpnInterface.None? && e.Established? ==> r == Done(s.(vpnInterface := Some(e.fd), effects := s.effects + [Establish(e.fd)])))
            && (s.vpnInterface.None? && e.Refused? ==> r == Done(s))
            && r.state.(vpnInterface := s.vpnInterface, effects := s.effects) == s
  {
  }

  /** A second setup, whatever `establish()` would do, keeps the interface the first one
      obtained. */
  lemma SetupTunIdempotent(s: State, e1: Establishment, e2: Establishment)
    requires SetupTunOutcome(s, e1).Done? && SetupTunOutcome(s, e1).state.vpnInterface.Some?
    ensures var t := SetupTunOutcome(s, e1).state;
            SetupTunOutcome(t, e2) == Done(t)
  {
  }

  // ------------------------------------------------------------------------------------------
  // onStartCommand
  // ------------------------------------------------------------------------------------------

  /** `xrayManager.runXray(fd, cfg)` and the start of its process; on success the process is
      kept in `xrayProcess`. */
  function XrayStep(s: State, ctx: Context, configPath: string, env: StartEnv): Outcome
  {
    var (files1, px) := XrayAssetManager.RunXrayOutcome(s.files, ctx.filesDir, ctx.supportedAbis, ctx.assets, configPath);
    var s1 := s.(files := files1);
    if px.Failure? || !env.xrayStarts then Threw(s1)
    else Done(s1.(xrayProcess := Some(px.value), effects := s1.effects + [Start(px.value)]))
  }

  /** `Tun2SocksManager(applicationContext).run(fd, "127.0.0.1:10808")` and the start of its
      process; on success the process is kept in `tun2socksProcess`. */
  function Tun2socksStep(s: State, ctx: Context, fd: int, env: StartEnv): Outcome
  {
    var (files1, pt) := Tun2SocksManager.RunOutcome(s.files, ctx.codeCacheDir, ctx.supportedAbis, ctx.assets, fd, ServiceSocksAddr);
    var s1 := s.(files := files1);
    if pt.Failure? || !env.tun2socksStarts then Threw(s1)
    else Done(s1.(tun2socksProcess := Some(pt.value), effects := s1.effects + [Start(pt.value)]))
  }

  /** The xray step touches only the storage, the xray handle and the effects; when it
      completes, it has started xray as `run -c` on the given config. */
  lemma XrayStepFrame(s: State, ctx: Context, configPath: string, env: StartEnv)
    ensures var r := XrayStep(s, ctx, configPath, env);
            r.state.(files := s.files, xrayProcess := s.xrayProcess, effects := s.effects) == s
            && (r.Threw? ==> r.state.xrayProcess == s.xrayProcess && r.state.effects == s.effects)
            && (r.Done? ==> r.state.xrayProcess.Some? && r.state.effects == s.effects + [Start(r.state.xrayProcess.value)]
                            && r.state.xrayProcess.value.argv == [XrayAssetManager.BinaryFile(ctx.filesDir), "run", "-c", configPath])
  {
    XrayAssetManager.RunXrayStartsProvidedBinary(s.files, ctx.filesDir, ctx.supportedAbis, ctx.assets, configPath);
  }

  /** The tun2socks step touches only the storage, the tun2socks handle and the effects; when
      it completes, it has started tun2socks on the descriptor and the SOCKS endpoint. */
  lemma Tun2socksStepFrame(s: State, ctx: Context, fd: int, env: StartEnv)
    ensures var r := Tun2socksStep(s, ctx, fd, env);
            r.state.(files := s.files, tun2socksProcess := s.tun2socksProcess, effects := s.effects) == s
            && (r.Threw? ==> r.state.tun2socksProcess == s.tun2socksProcess && r.state.effects == s.effects)
            && (r.Done? ==> r.state.tun2socksProcess.Some? && r.state.effects == s.effects + [Start(r.state.tun2socksProcess.value)]
                            && r.state.tun2socksProcess.value.argv[0] == Tun2SocksManager.BinFile(ctx.codeCacheDir)
                            && FlagValue(r.state.tun2socksProcess.value.argv, "--tunfd") == Some(IntToString(fd))
                            && FlagValue(r.state.tun2socksProcess.value.argv, "--socks-server-addr") == Some(ServiceSocksAddr))
  {
    var (files1, pt) := Tun2SocksManager.RunOutcome(s.files, ctx.codeCacheDir, ctx.supportedAbis, ctx.assets, fd, ServiceSocksAddr);
    Tun2SocksManager.RunStartsProvidedBinary(s.files, ctx.codeCacheDir, ctx.supportedAbis, ctx.assets, fd, ServiceSocksAddr);
    if pt.Success? {
      var (_, bin) := Tun2SocksManager.EnsurePresentOutcome(s.files, ctx.codeCacheDir, ctx.supportedAbis, ctx.assets);
      Tun2SocksManager.RunArgsRead(bin.value, fd, ServiceSocksAddr);
    }
  }

  /** The `vpnInterface?.let { fd -> ... }` block: with an interface, the xray step and then
      the tun2socks step on that interface; anything thrown leaves the handles assigned so
      far. */
  function LaunchOutcome(s: State, ctx: Context, configPath: string, env: StartEnv): Outcome
  {
    if s.vpnInterface.None? then Done(s)
    else
      match XrayStep(s, ctx, configPath, env)
      case Threw(t) => Threw(t)
      case Done(t) => Tun2socksStep(t, ctx, s.vpnInterface.value, env)
  }

  /** The launch block touches only the storage, the two process handles and the effects, and
      without an interface it does nothing. */
  lemma LaunchFrame(s: State, ctx: Context, configPath: string, env: StartEnv)
    ensures var r := LaunchOutcome(s, ctx, configPath, env);
            r.state.(files := s.files, xrayProcess := s.xrayProcess, tun2socksProcess := s.tun2socksProcess, effects := s.effects) == s
            && (s.vpnInterface.None? ==> r == Done(s))
  {
    if s.vpnInterface.Some? {
      XrayStepFrame(s, ctx, configPath, env);
      var x := XrayStep(s, ctx, configPath, env);
      if x.Done? {
        Tun2socksStepFrame(x.state, ctx, s.vpnInterface.value, env);
      }
    }
  }

  /** The end of the start sequence: the baselines clamped at 0, the start time, and the
      connected status with zero traffic. */
  function Connected(s: State, env: StartEnv): State
  {
    s.(startRxBytes := AtLeast(env.rxRaw, 0), startTxBytes := AtLeast(env.txRaw, 0), startTimeMs := env.nowMs,
       status := Status(true, env.nowMs, 0, 0))
  }

  /** `configRepository.writeDefaultConfigIfMissing()` then `xrayManager.ensureXrayPresent()`:
      the config file, unless either throws. */
  function ProvisionOutcome(fs: Files, ctx: Context): (Files, Result<string, IoError>)
  {
    var (files1, cfg) := ConfigRepository.WriteDefault(fs, ctx.filesDir);
    if cfg.Failure? then (files1, cfg)
    else
      var (files2, bin) := XrayAssetManager.EnsureXrayPresentOutcome(files1, ctx.filesDir, ctx.supportedAbis, ctx.assets);
      if bin.Failure? then (files2, Failure(bin.error)) else (files2, cfg)
  }

  /** Provisioning returns the config file, or the error of the step that threw. */
  lemma ProvisionReturnsConfig(fs: Files, ctx: Context)
    ensures var (r, cfg) := ProvisionOutcome(fs, ctx);
            var (r1, c) := ConfigRepository.WriteDefault(fs, ctx.filesDir);
            (cfg.Success? ==> cfg.value == ConfigRepository.ConfigFile(ctx.filesDir))
            && (cfg.Success? <==> c.Success? && XrayAssetManager.EnsureXrayPresentOutcome(r1, ctx.filesDir, ctx.supportedAbis, ctx.assets).1.Success?)
  {
    ConfigRepository.ReturnsConfigFile(fs, ctx.filesDir);
  }

  /** The `try` block of the start path: provisioning, the tunnel setup, the launch block when
      there is an interface, then the baselines and the connected status. */
  function StartOutcome(s: State, ctx: Context, env: StartEnv): Outcome
  {
    var (files, cfg) := ProvisionOutcome(s.files, ctx);
    var s1 := s.(files := files);
    if cfg.Failure? then Threw(s1)
    else
      match SetupTunOutcome(s1, env.establish)
      case Threw(s2) => Threw(s2)
      case Done(s2) =>
        match LaunchOutcome(s2, ctx, cfg.value, env)
        case Threw(s3) => Threw(s3)
        case Done(s3) => Done(Connected(s3, env))
  }

  /** Whatever happens, the start sequence leaves the session's numbers alone until it
      completes; when it completes it has taken the clamped counters, the clock and the
      connected status. Apart from those, it touches only the storage, the handles and the
      effects. */
  lemma StartFrame(s: State, ctx: Context, env: StartEnv)
    ensures var r := StartOutcome(s, ctx, env);
            var t := r.state;
            (r.Threw? ==> t.startRxBytes == s.startRxBytes && t.startTxBytes == s.startTxBytes
                          && t.startTimeMs == s.startTimeMs && t.status == s.status)
            && (r.Done? ==> t.startRxBytes == AtLeast(env.rxRaw, 0) && t.startTxBytes == AtLeast(env.txRaw, 0)
                            && t.startTimeMs == env.nowMs && t.status == Status(true, env.nowMs, 0, 0))
  {
    var (files, cfg) := ProvisionOutcome(s.files, ctx);
    var s1 := s.(files := files);
    if cfg.Success? {
      SetupTunCases(s1, env.establish);
      var s2 := SetupTunOutcome(s1, env.establish);
      if s2.Done? {
        LaunchFrame(s2.state, ctx, cfg.value, env);
      }
    }
  }

  /** `onStartCommand(intent, ...)`: the stop action stops the session; any other action, or
      none, runs the start sequence, and a throw inside it stops the session. */
  function StartCommandOutcome(s: State, ctx: Context, action: Option<string>, env: StartEnv): State
  {
    if action == Some(ActionStop) then StopOutcome(s)
    else
      match StartOutcome(s, ctx, env)
      case Done(t) => t
      case Threw(t) => StopOutcome(t)
  }

  /** The stop action stops; every other intent, the start action included, starts. */
  lemma ActionDispatch(s: State, ctx: Context, action: Option<string>, env: StartEnv)
    ensures action == Some(ActionStop) ==> StartCommandOutcome(s, ctx, action, env) == StopOutcome(s)
    ensures action != Some(ActionStop) ==>
              StartCommandOutcome(s, ctx, action, env) == StartCommandOutcome(s, ctx, Some(ActionStart), env)
    ensures action != Some(ActionStop) && StartOutcome(s, ctx, env).Done? ==>
              StartCommandOutcome(s, ctx, action, env) == StartOutcome(s, ctx, env).state
  {
    assert ActionStart[20] == 'A' && ActionStop[20] == 'O';
  }

  /** A start command ends either connected, with the status naming the clock reading and
      baselines that are not negative, or in the stopped state, with nothing held. */
  lemma StartEndsConnectedOrStopped(s: State, ctx: Context, action: Option<string>, env: StartEnv)
    requires action != Some(ActionStop)
    ensures var t := StartCommandOutcome(s, ctx, action, env);
            (StartOutcome(s, ctx, env).Done? ==>
               t.status == Status(true, env.nowMs, 0, 0) && t.startTimeMs == env.nowMs
               && t.startRxBytes >= 0 && t.startTxBytes >= 0
               && t.startRxBytes >= env.rxRaw && t.startTxBytes >= env.txRaw)
            && (StartOutcome(s, ctx, env).Threw? ==>
               t == StopOutcome(StartOutcome(s, ctx, env).state)
               && t.status == Disconnected
               && t.vpnInterface == None && t.xrayProcess == None && t.tun2socksProcess == None)
  {
    StartFrame(s, ctx, env);
  }

  /** The start sequence launches nothing without an interface: the processes held, and the
      effects, stay as they were. */
  lemma NoInterfaceNoLaunch(s: State, ctx: Context, env: StartEnv)
    requires StartOutcome(s, ctx, env).Done?
    requires StartOutcome(s, ctx, env).state.vpnInterface.None?
    ensures var t := StartOutcome(s, ctx, env).state;
            t.xrayProcess == s.xrayProcess && t.tun2socksProcess == s.tun2socksProcess && t.effects == s.effects
  {
    var (files, cfg) := ProvisionOutcome(s.files, ctx);
    var s1 := s.(files := files);
    SetupTunCases(s1, env.establish);
    var s2 := SetupTunOutcome(s1, env.establish).state;
    LaunchFrame(s2, ctx, cfg.value, env);
  }

  /** When `establish()` returns null the start still publishes the connected status, with no
      process running. */
  lemma RefusedInterfaceStillConnected(s: State, ctx: Context, env: StartEnv)
    requires s.vpnInterface.None? && s.xrayProcess.None? && s.tun2socksProcess.None?
    requires env.establish == Refused
    requires ProvisionOutcome(s.files, ctx).1.Success?
    ensures var t := StartCommandOutcome(s, ctx, None, env);
            t.status.connected && t.vpnInterface.None? && t.xrayProcess.None? && t.tun2socksProcess.None?
  {
    var (files, cfg) := ProvisionOutcome(s.files, ctx);
    LaunchFrame(s.(files := files), ctx, cfg.value, env);
  }

  /** With an interface, xray is started before tun2socks: xray as `run -c` on the config file
      the repository returned, tun2socks on that interface's descriptor and the SOCKS endpoint
      of the default config. Those two starts are the last effects of a completed start. */
  lemma LaunchOrder(s: State, ctx: Context, env: StartEnv)
    requires StartOutcome(s, ctx, env).Done?
    requires StartOutcome(s, ctx, env).state.vpnInterface.Some?
    ensures var t := StartOutcome(s, ctx, env).state;
            var fd := t.vpnInterface.value;
            t.xrayProcess.Some? && t.tun2socksProcess.Some?
            && |t.effects| >= |s.effects| + 2
            && t.effects[|t.effects| - 2] == Start(t.xrayProcess.value)
            && t.effects[|t.effects| - 1] == Start(t.tun2socksProcess.value)
            && t.xrayProcess.value.argv == [XrayAssetManager.BinaryFile(ctx.filesDir), "run", "-c", ConfigRepository.ConfigFile(ctx.filesDir)]
            && t.tun2socksProcess.value.argv[0] == Tun2SocksManager.BinFile(ctx.codeCacheDir)
            && FlagValue(t.tun2socksProcess.value.argv, "--tunfd") == Some(IntToString(fd))
            && FlagValue(t.tun2socksProcess.value.argv, "--socks-server-addr") == Some(ServiceSocksAddr)
  {
    var (files, cfg) := ProvisionOutcome(s.files, ctx);
    ProvisionReturnsConfig(s.files, ctx);
    var s1 := s.(files := files);
    SetupTunCases(s1, env.establish);
    var s2 := SetupTunOutcome(s1, env.establish).state;
    LaunchFrame(s2, ctx, cfg.value, env);
    LaunchStarts(s2, ctx, cfg.value, env);
  }

  /** The launch block, when it completes, starts exactly the two processes, in order. */
  lemma LaunchStarts(s: State, ctx: Context, configPath: string, env: StartEnv)
    requires s.vpnInterface.Some? && LaunchOutcome(s, ctx, configPath, env).Done?
    ensures var t := LaunchOutcome(s, ctx, configPath, env).state;
            var fd := s.vpnInterface.value;
            t.vpnInterface == s.vpnInterface && t.xrayProcess.Some? && t.tun2socksProcess.Some?
            && t.effects == s.effects + [Start(t.xrayProcess.value), Start(t.tun2socksProcess.value)]
            && t.xrayProcess.value.argv == [XrayAssetManager.BinaryFile(ctx.filesDir), "run", "-c", configPath]
            && t.tun2socksProcess.value.argv[0] == Tun2SocksManager.BinFile(ctx.codeCacheDir)
            && FlagValue(t.tun2socksProcess.value.argv, "--tunfd") == Some(IntToString(fd))
            && FlagValue(t.tun2socksProcess.value.argv, "--socks-server-addr") == Some(ServiceSocksAddr)
  {
    XrayStepFrame(s, ctx, configPath, env);
    var x := XrayStep(s, ctx, configPath, env).state;
    assert LaunchOutcome(s, ctx, configPath, env) == Tun2socksStep(x, ctx, s.vpnInterface.value, env);
    Tun2socksStepFrame(x, ctx, s.vpnInterface.value, env);
  }

  /** The endpoint tun2socks is pointed at is the SOCKS inbound the default config declares,
      and the default of `Tun2SocksManager.run`. */
  lemma SocksEndpointsAgree()
    ensures ServiceSocksAddr == ConfigRepository.InboundListen + ":" + ConfigRepository.InboundPort
    ensures ServiceSocksAddr == Tun2SocksManager.DefaultSocksAddr
  {
    assert ConfigRepository.InboundListen + ":" + ConfigRepository.InboundPort == "127.0.0.1:10808";
  }

  // ------------------------------------------------------------------------------------------
  // updateStatsLoop, one sample
  // ------------------------------------------------------------------------------------------

  /** `(raw.coerceAtLeast(0) - baseline).coerceAtLeast(0)`, with `Long` subtraction. */
  function Delta(raw: int, baseline: int): (d: int)
    ensures d >= 0
    ensures d == 0 || d == ToLong(AtLeast(raw, 0) - baseline)
  {
    AtLeast(ToLong(AtLeast(raw, 0) - baseline), 0)
  }

  /** One turn of `updateStatsLoop`: the connected status with the session's start time and the
      traffic since the baselines. */
  function SampleOutcome(s: State, rxRaw: int, txRaw: int): State
  {
    s.(status := Status(true, s.startTimeMs, Delta(rxRaw, s.startRxBytes), Delta(txRaw, s.startTxBytes)))
  }

  /** For `Long` counters and a baseline taken by the start sequence, the subtraction cannot
      wrap: the sample is the traffic since the baseline, or 0 when the counter reads less. */
  lemma DeltaExact(raw: int, baseline: int)
    requires IsLong(raw) && 0 <= baseline <= LongMax
    ensures Delta(raw, baseline) == if AtLeast(raw, 0) >= baseline then AtLeast(raw, 0) - baseline else 0
  {
  }

  /** A larger counter never gives a smaller sample. */
  lemma DeltaMonotone(raw1: int, raw2: int, baseline: int)
    requires IsLong(raw1) && IsLong(raw2) && raw1 <= raw2 && 0 <= baseline <= LongMax
    ensures Delta(raw1, baseline) <= Delta(raw2, baseline)
  {
    DeltaExact(raw1, baseline);
    DeltaExact(raw2, baseline);
  }

  /** A sample only rewrites the status: still connected, at the session's start time, with
      traffic that is never negative. */
  lemma SampleKeepsSession(s: State, rxRaw: int, txRaw: int)
    ensures var t := SampleOutcome(s, rxRaw, txRaw);
            t.(status := s.status) == s
            && t.status.connected && t.status.startTimeMs == s.startTimeMs
            && t.status.rxBytes >= 0 && t.status.txBytes >= 0
  {
  }

  /** Sampled with the counters the start read, a freshly connected session shows no traffic. */
  lemma SampleAtStartIsZero(s: State, ctx: Context, env: StartEnv)
    requires IsLong(env.rxRaw) && IsLong(env.txRaw)
    requires StartOutcome(s, ctx, env).Done?
    ensures var t := StartOutcome(s, ctx, env).state;
            SampleOutcome(t, env.rxRaw, env.txRaw).status == t.status
  {
    var t := StartOutcome(s, ctx, env).state;
    StartFrame(s, ctx, env);
    DeltaExact(env.rxRaw, t.startRxBytes);
    DeltaExact(env.txRaw, t.startTxBytes);
  }

  /** The baselines stay within `0..Long.MAX_VALUE` through every command, given `Long` counters. */
  predicate BaselinesInRange(s: State)
  {
    0 <= s.startRxBytes <= LongMax && 0 <= s.startTxBytes <= LongMax
  }

  lemma CommandsKeepBaselines(s: State, ctx: Context, action: Option<string>, env: StartEnv, rx: int, tx: int)
    requires BaselinesInRange(s) && IsLong(env.rxRaw) && IsLong(env.txRaw)
    ensures BaselinesInRange(StartCommandOutcome(s, ctx, action, env))
    ensures BaselinesInRange(SampleOutcome(s, rx, tx))
    ensures BaselinesInRange(DestroyOutcome(s))
    ensures BaselinesInRange(StopOutcome(s))
  {
    StartFrame(s, ctx, env);
  }

  // ------------------------------------------------------------------------------------------
  // onDestroy
  // ------------------------------------------------------------------------------------------

  /** `onDestroy()`: closes the interface, destroys xray, clears those two handles and publishes
      the disconnected status; the tun2socks process is neither destroyed nor forgotten. */
  function DestroyOutcome(s: State): State
  {
    s.(vpnInterface := None, xrayProcess := None, status := Disconnected,
       effects := s.effects + CloseEach(s.vpnInterface) + DestroyEach(s.xrayProcess))
  }

  /** After `onDestroy` the interface and xray are released and cleared, while a tun2socks
      process is still held and no destroy reaches it. */
  lemma DestroyKeepsTun2socks(s: State)
    ensures var t := DestroyOutcome(s);
            t.vpnInterface == None && t.xrayProcess == None && t.status == Disconnected
            && t.tun2socksProcess == s.tun2socksProcess
            && (s.vpnInterface.Some? ==> Close(s.vpnInterface.value) in t.effects[|s.effects|..])
            && (s.xrayProcess.Some? ==> Destroy(s.xrayProcess.value) in t.effects[|s.effects|..])
            && (s.tun2socksProcess.Some? && s.tun2socksProcess != s.xrayProcess ==>
                  Destroy(s.tun2socksProcess.value) !in t.effects[|s.effects|..])
  {
    var t := DestroyOutcome(s);
    assert t.effects[|s.effects|..] == CloseEach(s.vpnInterface) + DestroyEach(s.xrayProcess);
  }

  /** Destroying a connected session with an interface leaves its tun2socks process running,
      where a stop would have destroyed it. */
  lemma DestroyAfterStartLeavesTun2socks(s: State, ctx: Context, env: StartEnv)
    requires StartOutcome(s, ctx, env).Done? && StartOutcome(s, ctx, env).state.vpnInterface.Some?
    ensures var t := StartOutcome(s, ctx, env).state;
            DestroyOutcome(t).tun2socksProcess == t.tun2socksProcess && t.tun2socksProcess.Some?
            && StopOutcome(t).tun2socksProcess.None?
            && Destroy(t.tun2socksProcess.value) in StopOutcome(t).effects[|t.effects|..]
  {
    LaunchOrder(s, ctx, env);
    StopReleasesEverything(StartOutcome(s, ctx, env).state);
  }

  // ------------------------------------------------------------------------------------------
  // The service object
  // ------------------------------------------------------------------------------------------

  class NetvorVpnService {
    var vpnInterface: Option<int>
    var xrayProcess: Option<ProcessSpec>
    var tun2socksProcess: Option<ProcessSpec>
    var startRxBytes: int
    var startTxBytes: int
    var startTimeMs: int
    /** The operating-system calls made so far, in order. */
    var effects: seq<Effect>

    const filesDir: string
    const codeCacheDir: string
    const supportedAbis: Option<seq<string>>
    const assets: map<string, string>
    const bus: AppBus
    const store: FileStore
    const configRepository: ConfigRepository.ConfigRepository
    const xrayManager: XrayAssetManager.XrayManager

    /** The managers work on the service's context and storage. */
    predicate Valid()
    {
      configRepository.filesDir == filesDir && configRepository.store == store
      && xrayManager.filesDir == filesDir && xrayManager.supportedAbis == supportedAbis
      && xrayManager.assets == assets && xrayManager.store == store
    }

    function Ctx(): Context
    {
      Context(filesDir, codeCacheDir, supportedAbis, assets)
    }

    function Snapshot(): State
      reads this, bus, store
    {
      State(vpnInterface, xrayProcess, tun2socksProcess, startRxBytes, startTxBytes, startTimeMs, bus.status, store.files, effects)
    }

    /** The service as `onCreate` leaves it: no handles, zero baselines, its two managers. */
    constructor (filesDir: string, codeCacheDir: string, supportedAbis: Option<seq<string>>, assets: map<string, string>, bus: AppBus, store: FileStore)
      ensures Valid() && this.bus == bus && this.store == store
      ensures Ctx() == Context(filesDir, codeCacheDir, supportedAbis, assets)
      ensures vpnInterface == None && xrayProcess == None && tun2socksProcess == None
      ensures startRxBytes == 0 && startTxBytes == 0 && startTimeMs == 0 && effects == []
    {
      this.filesDir := filesDir;
      this.codeCacheDir := codeCacheDir;
      this.supportedAbis := supportedAbis;
      this.assets := assets;
      this.bus := bus;
      this.store := store;
      this.configRepository := new ConfigRepository.ConfigRepository(filesDir, store);
      this.xrayManager := new XrayAssetManager.XrayManager(filesDir, supportedAbis, assets, store);
      vpnInterface := None;
      xrayProcess := None;
      tun2socksProcess := None;
      startRxBytes := 0;
      startTxBytes := 0;
      startTimeMs := 0;
      effects := [];
    }

    method StopVpn()
      modifies this, bus`status
      ensures Snapshot() == StopOutcome(old(Snapshot()))
    {
      effects := effects + DestroyEach(tun2socksProcess);
      tun2socksProcess := None;
      effects := effects + DestroyEach(xrayProcess);
      xrayProcess := None;
      effects := effects + CloseEach(vpnInterface);
      vpnInterface := None;
      bus.UpdateStatus(Disconnected);
      effects := effects + [StopSelf];
    }

    /** Returns whether `establish()` threw. */
    method SetupTun(e: Establishment) returns (threw: bool)
      modifies this
      ensures SetupTunOutcome(old(Snapshot()), e) == if threw then Threw(Snapshot()) else Done(Snapshot())
    {
      threw := false;
      if vpnInterface.Some? {
        return;
      }
      match e
      case Established(fd) =>
        vpnInterface := Some(fd);
        effects := effects + [Establish(fd)];
      case Refused =>
      case Throws =>
        threw := true;
    }

    /** The `try` block of the start path; returns whether it threw. */
    method StartSession(env: StartEnv) returns (threw: bool)
      requires Valid()
      modifies this, bus`status, store
      ensures StartOutcome(old(Snapshot()), Ctx(), env) == if threw then Threw(Snapshot()) else Done(Snapshot())
    {
      var cfg := Provision();
      if cfg.Failure? {
        return true;
      }
      threw := SetupTun(env.establish);
      if threw {
        return;
      }
      threw := LaunchProcesses(cfg.value, env);
      if threw {
        return;
      }
      Connect(env);
    }

    /** The baselines, the start time and the connected status that end the start path. */
    method Connect(env: StartEnv)
      modifies this, bus`status
      ensures Snapshot() == Connected(old(Snapshot()), env)
    {
      startRxBytes := AtLeast(env.rxRaw, 0);
      startTxBytes := AtLeast(env.txRaw, 0);
      startTimeMs := env.nowMs;
      bus.UpdateStatus(Status(true, startTimeMs, 0, 0));
    }

    /** `configRepository.writeDefaultConfigIfMissing()`, then `xrayManager.ensureXrayPresent()`. */
    method Provision() returns (cfg: Result<string, IoError>)
      requires Valid()
      modifies store
      ensures (store.files, cfg) == ProvisionOutcome(old(store.files), Ctx())
    {
      cfg := configRepository.WriteDefaultConfigIfMissing();
      if cfg.Failure? {
        return;
      }
      var bin := xrayManager.EnsureXrayPresent();
      if bin.Failure? {
        return Failure(bin.error);
      }
    }

    /** The `vpnInterface?.let { fd -> ... }` block; returns whether it threw. */
    method LaunchProcesses(configPath: string, env: StartEnv) returns (threw: bool)
      requires Valid()
      modifies this, store
      ensures LaunchOutcome(old(Snapshot()), Ctx(), configPath, env) == if threw then Threw(Snapshot()) else Done(Snapshot())
    {
      threw := false;
      if vpnInterface.None? {
        return;
      }
      var fd := vpnInterface.value;
      threw := StartXray(configPath, env);
      if threw {
        return;
      }
      threw := StartTun2socks(fd, env);
    }

    /** `xrayProcess = xrayManager.runXray(fd, cfg)`; returns whether it threw. */
    method StartXray(configPath: string, env: StartEnv) returns (threw: bool)
      requires Valid()
      modifies this, store
      ensures XrayStep(old(Snapshot()), Ctx(), configPath, env) == if threw then Threw(Snapshot()) else Done(Snapshot())
    {
      var px := xrayManager.RunXray(configPath);
      if px.Failure? || !env.xrayStarts {
        return true;
      }
      xrayProcess := Some(px.value);
      effects := effects + [Start(px.value)];
      threw := false;
    }

    /** `tun2socksProcess = Tun2SocksManager(applicationContext).run(fd, "127.0.0.1:10808")`;
        returns whether it threw. */
    method StartTun2socks(fd: int, env: StartEnv) returns (threw: bool)
      modifies this, store
      ensures Tun2socksStep(old(Snapshot()), Ctx(), fd, env) == if threw then Threw(Snapshot()) else Done(Snapshot())
    {
      var t2s := new Tun2SocksManager.Tun2SocksManager(codeCacheDir, supportedAbis, assets, store);
      var pt := t2s.Run(fd, ServiceSocksAddr);
      if pt.Failure? || !env.tun2socksStarts {
        return true;
      }
      tun2socksProcess := Some(pt.value);
      effects := effects + [Start(pt.value)];
      threw := false;
    }

    method OnStartCommand(action: Option<string>, env: StartEnv) returns (r: int)
      requires Valid()
      modifies this, bus`status, store
      ensures Snapshot() == StartCommandOutcome(old(Snapshot()), Ctx(), action, env)
      ensures r == StartNotSticky
    {
      if action == Some(ActionStop) {
        StopVpn();
      } else {
        var threw := StartSession(env);
        if threw {
          StopVpn();
        }
      }
      r := StartNotSticky;
    }

    /** One turn of `updateStatsLoop`, with the counters it reads. */
    method SampleStats(rxRaw: int, txRaw: int)
      modifies bus`status
      ensures Snapshot() == SampleOutcome(old(Snapshot()), rxRaw, txRaw)
    {
      var drx := AtLeast(ToLong(AtLeast(rxRaw, 0) - startRxBytes), 0);
      var dtx := AtLeast(ToLong(AtLeast(txRaw, 0) - startTxBytes), 0);
      bus.UpdateStatus(Status(true, startTimeMs, drx, dtx));
    }

    method OnDestroy()
      modifies this, bus`status
      ensures Snapshot() == DestroyOutcome(old(Snapshot()))
    {
      effects := effects + CloseEach(vpnInterface);
      vpnInterface := None;
      effects := effects + DestroyEach(xrayProcess);
      xrayProcess := None;
      bus.UpdateStatus(Disconnected);
    }
  }
}
