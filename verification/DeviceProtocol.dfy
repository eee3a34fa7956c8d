/** Connecting, resetting and rebooting a device from several threads (ob_camera_node_driver.cpp:
    deviceConnectCallback, initializeDevice, deviceDisconnectCallback, resetDeviceThread,
    rebootDeviceServiceCallback, checkConnectionTimer, deviceStatusTimer), while the node is alive.
    P is orb_device_lock_, R is reset_device_lock_, D is device_lock_. */
module DeviceProtocol {

  /* Positions of a thread. A name with Want is a thread that is about to lock. */

  /** deviceConnectCallback, up to the second test of device_connected_, and the end of its try block. */
  datatype ConnectPC =
    | ConnectWantR | ConnectTestReset | ConnectWaiting(notified: bool) | ConnectUnlockR
    | ConnectTestOnce | ConnectWantP | ConnectTestTwice | ConnectUnlockP

  /** deviceConnectCallback, between that test and the call of initializeDevice; `left` counts the devices of
      the list that are still to be looked at after this one. */
  datatype SelectPC =
    | SelectWantClear | SelectClear | SelectUnlockClear
    | Select | SelectWantLook(left: nat) | SelectLook(left: nat) | SelectUnlockLook(left: nat) | SelectFound

  /** initializeDevice; the verdict asks the camera node and the lidar node, if there is one, whether they are
      initialized. With Unwind an exception leaves the try block. */
  datatype InitPC =
    | InitWantD | InitDevice | InitClean | InitNode | InitVerdict(camera: bool, lidar: bool) | InitUnlockD
    | UnwindD | UnwindP

  /** A reset is requested: deviceDisconnectCallback, or the end of a failed connect. */
  datatype RaisePC = RaiseWantR | RaiseSet | RaiseNotify | RaiseUnlockR

  /** resetDeviceThread. */
  datatype ResetPC =
    | ResetWantR | ResetTest | ResetWaiting(notified: bool)
    | ResetWantD | ResetNodes | ResetDevice | ResetConnected | ResetUnlockD | ResetClear
    | ResetNotify | ResetUnlockR

  /** rebootDeviceServiceCallback, checkConnectionTimer, and deviceStatusTimer, which only tries to lock R. */
  datatype ServicePC =
    | RebootWantP | RebootWantR | RebootWantD | Reboot | RebootUnlockD | RebootUnlockR | RebootUnlockP
    | TimerTest | TimerNodes | TimerClear
    | StatusTest | StatusTry | StatusAsk | StatusUse | StatusEnd

  datatype PC =
    | Idle
    | InConnect(connect: ConnectPC)
    | InSelect(select: SelectPC)
    | InInit(init: InitPC)
    | InRaise(raise: RaisePC)
    | InReset(reset: ResetPC)
    | InService(service: ServicePC)

  predicate HoldsP(pc: PC) {
    match pc
    case InConnect(c) => c == ConnectTestTwice || c == ConnectUnlockP
    case InSelect(_) => true
    case InInit(_) => true
    case InService(v) =>
      || v == RebootWantR || v == RebootWantD || v == Reboot
      || v == RebootUnlockD || v == RebootUnlockR || v == RebootUnlockP
    case _ => false
  }

  predicate HoldsR(pc: PC) {
    match pc
    case InConnect(c) => c == ConnectTestReset || c == ConnectUnlockR
    case InRaise(c) => c != RaiseWantR
    case InReset(r) => r != ResetWantR && !r.ResetWaiting?
    case InService(v) =>
      || v == RebootWantD || v == Reboot || v == RebootUnlockD || v == RebootUnlockR
      || v == StatusAsk || v == StatusUse || v == StatusEnd
    case _ => false
  }

  predicate HoldsD(pc: PC) {
    match pc
    case InSelect(c) => c == SelectClear || c == SelectUnlockClear || c.SelectLook? || c.SelectUnlockLook?
    case InInit(c) => c != InitWantD && c != UnwindP
    case InReset(r) => r == ResetNodes || r == ResetDevice || r == ResetConnected || r == ResetUnlockD
    case InService(v) => v == Reboot || v == RebootUnlockD
    case _ => false
  }

  /** reset_device_, device_connected_, and whether device_, ob_camera_node_, ob_lidar_node_ are set. */
  datatype Data = Data(reset: bool, connected: bool, device: bool, camera: bool, lidar: bool)

  datatype Kind = CameraKind | LidarKind | OtherKind

  /** What does not change: the type of the device, and how many devices a list has at most. */
  datatype Setup = Setup(kind: Kind, devices: nat)

  datatype State = State(setup: Setup, data: Data, pcs: seq<PC>)

  /* One step of one thread, as far as the thread itself goes, part by part. Several successors mean
     that the outcome depends on the device: found or not, initialized or not, exception or not. */

  predicate ConnectStep(c: ConnectPC, d: Data, pc': PC, d': Data) {
    && d' == d
    && match c
       case ConnectWantR => pc' == InConnect(ConnectTestReset)
       case ConnectTestReset => pc' == InConnect(if d.reset then ConnectWaiting(false) else ConnectUnlockR)
       case ConnectWaiting(_) => pc' == InConnect(ConnectWantR)
       case ConnectUnlockR => pc' == InConnect(ConnectTestOnce)
       case ConnectTestOnce => pc' == Idle || (!d.connected && pc' == InConnect(ConnectWantP))
       case ConnectWantP => pc' == InConnect(ConnectTestTwice)
       case ConnectTestTwice => pc' == if d.connected then InConnect(ConnectUnlockP) else InSelect(SelectWantClear)
       case ConnectUnlockP => pc' == Idle
  }

  predicate SelectStep(setup: Setup, c: SelectPC, d: Data, pc': PC, d': Data) {
    match c
    case SelectWantClear => pc' == InSelect(SelectClear) && d' == d
    case SelectClear =>
      || (pc' == InSelect(SelectUnlockClear) && d' == d.(camera := false, device := false))
      || (pc' == InInit(UnwindD) && (d' == d || d' == d.(camera := false)))
    case SelectUnlockClear => pc' == InSelect(Select) && d' == d
    case Select =>
      && d' == d
      && (pc' == InSelect(SelectFound) || pc' == InInit(UnwindP)
          || (pc'.InSelect? && pc'.select.SelectWantLook? && pc'.select.left < setup.devices))
    case SelectWantLook(left) => pc' == InSelect(SelectLook(left)) && d' == d
    case SelectLook(left) => (pc' == InSelect(SelectUnlockLook(left)) || pc' == InInit(UnwindD)) && d' == d
    case SelectUnlockLook(left) =>
      && d' == d
      && (pc' == InSelect(SelectFound) || (left > 0 && pc' == InSelect(SelectWantLook(left - 1))))
    case SelectFound =>
      || (pc' == InInit(InitWantD) && d' == d)
      || (pc' == InConnect(ConnectUnlockP) && d' == d.(connected := false))
  }

  /** Lines 447-462: `camera` and `lidar` say whether the node, if it is set, is initialized. */
  function Judged(d: Data, camera: bool, lidar: bool): Data {
    if (d.camera && camera) || (d.lidar && lidar) then d.(connected := true)
    else if !d.camera || !camera then d.(connected := false, camera := false)
    else if !d.lidar || !lidar then d.(connected := false, lidar := false)
    else d
  }

  /** The third case never comes up: without an initialized node the camera node is taken away, and a lidar
      node, initialized or not, is kept. */
  lemma LidarIsKept(d: Data, camera: bool, lidar: bool)
    ensures if (d.camera && camera) || (d.lidar && lidar) then Judged(d, camera, lidar) == d.(connected := true)
            else Judged(d, camera, lidar) == d.(connected := false, camera := false)
    ensures Judged(d, camera, lidar).lidar == d.lidar
  {
  }

  predicate InitStep(setup: Setup, c: InitPC, d: Data, pc': PC, d': Data) {
    match c
    case InitWantD => pc' == InInit(InitDevice) && d' == d
    case InitDevice =>
      || (pc' == InInit(InitClean) && d' == d.(device := true))
      || (pc' == InInit(InitUnlockD) && d' == d.(device := false, connected := false))
      || (pc' == InInit(UnwindD) && (d' == d.(device := false) || d' == d.(device := true)))
    case InitClean =>
      || (pc' == InInit(InitNode) && d' == if d.camera then d.(camera := false) else d.(lidar := false))
      || (pc' == InInit(UnwindD) && d' == d)
    case InitNode =>
      var made := match setup.kind
                  case CameraKind => d.(camera := true)
                  case LidarKind => d.(lidar := true)
                  case OtherKind => d;
      || (pc'.InInit? && pc'.init.InitVerdict? && (d' == made || d' == made.(connected := false)))
      || (pc' == InInit(InitUnlockD) && setup.kind != OtherKind && (d' == made || d' == made.(connected := false)))
      || (pc' == InInit(UnwindD) && (d' == d || d' == made || d' == made.(connected := false)))
    case InitVerdict(camera, lidar) =>
      || (pc' == InInit(InitUnlockD) && d' == Judged(d, camera, lidar))
      || (pc' == InInit(UnwindD) && d' == d)
    case InitUnlockD => (pc' == InConnect(ConnectUnlockP) || pc' == InInit(UnwindP)) && d' == d
    case UnwindD => pc' == InInit(UnwindP) && d' == d
    case UnwindP => pc' == InRaise(RaiseWantR) && d' == d
  }

  predicate RaiseStep(c: RaisePC, d: Data, pc': PC, d': Data) {
    match c
    case RaiseWantR => pc' == InRaise(RaiseSet) && d' == d
    case RaiseSet => pc' == InRaise(RaiseNotify) && d' == d.(reset := true)
    case RaiseNotify => pc' == InRaise(RaiseUnlockR) && d' == d
    case RaiseUnlockR => pc' == Idle && d' == d
  }

  predicate ResetStep(r: ResetPC, d: Data, r': ResetPC, d': Data) {
    match r
    case ResetWantR => r' == ResetTest && d' == d
    case ResetTest => r' == (if d.reset then ResetWantD else ResetWaiting(false)) && d' == d
    case ResetWaiting(_) => r' == ResetWantR && d' == d
    case ResetWantD => r' == ResetNodes && d' == d
    case ResetNodes => r' == ResetDevice && d' == if d.camera then d.(camera := false) else d.(lidar := false)
    case ResetDevice => r' == ResetConnected && d' == d.(device := false)
    case ResetConnected => r' == ResetUnlockD && d' == d.(connected := false)
    case ResetUnlockD => r' == ResetClear && d' == d
    case ResetClear => r' == ResetNotify && d' == d.(reset := false)
    case ResetNotify => r' == ResetUnlockR && d' == d
    case ResetUnlockR => r' == ResetWantR && d' == d
  }

  predicate ServiceStep(v: ServicePC, d: Data, pc': PC, d': Data) {
    && d' == (if v == TimerClear then d.(connected := false) else d)
    && match v
       case RebootWantP => pc' == InService(RebootWantR) || pc' == Idle
       case RebootWantR => pc' == InService(RebootWantD)
       case RebootWantD => pc' == InService(Reboot)
       case Reboot => pc' == InService(RebootUnlockD)
       case RebootUnlockD => pc' == InService(RebootUnlockR)
       case RebootUnlockR => pc' == InService(RebootUnlockP)
       case RebootUnlockP => pc' == Idle
       case TimerTest => pc' == if d.connected then InService(TimerNodes) else Idle
       case TimerNodes => pc' == if !d.camera && !d.lidar then InService(TimerClear) else Idle
       case TimerClear => pc' == Idle
       case StatusTest => pc' == if d.connected then InService(StatusTry) else Idle
       case StatusTry => pc' == InService(StatusAsk) || pc' == Idle
       case StatusAsk => pc' == InService(if !d.reset && d.camera then StatusUse else StatusEnd)
       case StatusUse => pc' == InService(StatusEnd)
       case StatusEnd => pc' == Idle
  }

  /** A thread begins a callback. */
  predicate Starts(pc': PC) {
    pc' == InConnect(ConnectWantR) || pc' == InRaise(RaiseWantR) || pc' == InService(RebootWantP)
    || pc' == InService(TimerTest) || pc' == InService(StatusTest)
  }

  predicate Local(setup: Setup, pc: PC, d: Data, pc': PC, d': Data) {
    match pc
    case Idle => Starts(pc') && d' == d
    case InConnect(c) => ConnectStep(c, d, pc', d')
    case InSelect(c) => SelectStep(setup, c, d, pc', d')
    case InInit(c) => InitStep(setup, c, d, pc', d')
    case InRaise(c) => RaiseStep(c, d, pc', d')
    case InReset(r) => pc'.InReset? && ResetStep(r, d, pc'.reset, d')
    case InService(v) => ServiceStep(v, d, pc', d')
  }

  predicate Notifies(pc: PC) {
    pc == InRaise(RaiseNotify) || pc == InReset(ResetNotify)
  }

  /** notify_all reaches every thread that waits. */
  function Notified(pc: PC): PC {
    if pc == InConnect(ConnectWaiting(false)) then InConnect(ConnectWaiting(true))
    else if pc == InReset(ResetWaiting(false)) then InReset(ResetWaiting(true))
    else pc
  }

  ghost predicate FreeP(s: State) { forall t | 0 <= t < |s.pcs| :: !HoldsP(s.pcs[t]) }
  ghost predicate FreeR(s: State) { forall t | 0 <= t < |s.pcs| :: !HoldsR(s.pcs[t]) }
  ghost predicate FreeD(s: State) { forall t | 0 <= t < |s.pcs| :: !HoldsD(s.pcs[t]) }

  /** A lock that the step takes is free. */
  ghost predicate LocksAllow(s: State, pc: PC, pc': PC) {
    && (HoldsP(pc') && !HoldsP(pc) ==> FreeP(s))
    && (HoldsR(pc') && !HoldsR(pc) ==> FreeR(s))
    && (HoldsD(pc') && !HoldsD(pc) ==> FreeD(s))
  }

  /** One step of thread t. */
  ghost predicate Next(s: State, t: nat, s': State) {
    && t < |s.pcs| == |s'.pcs| && s'.setup == s.setup
    && var pc, pc' := s.pcs[t], s'.pcs[t];
       && Local(s.setup, pc, s.data, pc', s'.data) && LocksAllow(s, pc, pc')
       && forall u | 0 <= u < |s.pcs| && u != t :: s'.pcs[u] == if Notifies(pc) then Notified(s.pcs[u]) else s.pcs[u]
  }

  /** At the start the reset thread is about to enter its loop and all others are idle. */
  ghost predicate Init(s: State) {
    && s.data == Data(false, false, false, false, false)
    && forall t | 0 <= t < |s.pcs| :: s.pcs[t] == Idle || s.pcs[t] == InReset(ResetWantR)
  }

  /** Between its second test of device_connected_ and its verdict a connecting thread sees it false. */
  predicate Connecting(pc: PC) {
    pc.InSelect? || (pc.InInit? && pc.init != InitUnlockD && pc.init != UnwindD && pc.init != UnwindP)
  }

  predicate AtVerdict(pc: PC) {
    pc.InInit? && pc.init.InitVerdict?
  }

  /** From the assignment of device_ to the verdict. */
  predicate HasDevice(pc: PC) {
    pc.InInit? && (pc.init == InitClean || pc.init == InitNode || pc.init.InitVerdict?)
  }

  /** The reset thread has taken the node away but not yet cleared device_connected_. */
  predicate Dismantling(pc: PC) {
    pc == InReset(ResetDevice) || pc == InReset(ResetConnected)
  }

  /** The reset thread has seen a request and not yet cleared it. */
  predicate Resetting(pc: PC) {
    && pc.InReset?
    && match pc.reset
       case ResetWantD | ResetNodes | ResetDevice | ResetConnected | ResetUnlockD | ResetClear => true
       case _ => false
  }

  ghost predicate Exclusive(s: State) {
    && (forall t, u | 0 <= t < |s.pcs| && 0 <= u < |s.pcs| && HoldsP(s.pcs[t]) && HoldsP(s.pcs[u]) :: t == u)
    && (forall t, u | 0 <= t < |s.pcs| && 0 <= u < |s.pcs| && HoldsR(s.pcs[t]) && HoldsR(s.pcs[u]) :: t == u)
    && (forall t, u | 0 <= t < |s.pcs| && 0 <= u < |s.pcs| && HoldsD(s.pcs[t]) && HoldsD(s.pcs[u]) :: t == u)
  }

  ghost predicate Consistent(s: State) {
    && (forall t | 0 <= t < |s.pcs| && Connecting(s.pcs[t]) :: !s.data.connected)
    && (forall t | 0 <= t < |s.pcs| && HasDevice(s.pcs[t]) :: s.data.device)
    && (forall t | 0 <= t < |s.pcs| && Resetting(s.pcs[t]) :: s.data.reset)
    && (s.data.connected ==> (s.data.device && (s.data.camera || s.data.lidar))
                             || exists t | 0 <= t < |s.pcs| :: Dismantling(s.pcs[t]))
  }

  /** A thread that waits without having been notified has no reason to go on, unless the thread
      that changed the reason is about to notify. */
  ghost predicate NoLostWakeup(s: State) {
    && (forall t | 0 <= t < |s.pcs| && s.pcs[t] == InConnect(ConnectWaiting(false)) ::
          s.data.reset || exists u | 0 <= u < |s.pcs| :: s.pcs[u] == InReset(ResetNotify))
    && (forall t | 0 <= t < |s.pcs| && s.pcs[t] == InReset(ResetWaiting(false)) ::
          !s.data.reset || exists u | 0 <= u < |s.pcs| :: s.pcs[u] == InRaise(RaiseNotify))
  }

  ghost predicate Inv(s: State) {
    Exclusive(s) && Consistent(s) && NoLostWakeup(s)
  }

  /* What one step can do, whichever it is. */

  predicate ConnectedRule(pc: PC, d: Data, pc': PC, d': Data) {
    && (d'.connected && !d.connected ==> AtVerdict(pc) && (d.camera || d.lidar) && d' == d.(connected := true))
    && (Connecting(pc') ==> Connecting(pc) || (!d.connected && d' == d))
    && (Connecting(pc') && !d.connected ==> !d'.connected)
    && (Dismantling(pc) ==> Dismantling(pc') || !d'.connected)
  }

  predicate DeviceRule(pc: PC, d: Data, pc': PC, d': Data) {
    && (d'.device != d.device ==> HoldsD(pc))
    && (HasDevice(pc') ==> if HasDevice(pc) then d'.device == d.device else d'.device)
  }

  predicate NodeRule(pc: PC, d: Data, pc': PC, d': Data) {
    && (d'.device != d.device || d'.camera != d.camera || d'.lidar != d.lidar ==>
          Connecting(pc) || Dismantling(pc) || pc == InReset(ResetNodes))
    && (pc == InReset(ResetNodes) ==> Dismantling(pc'))
  }

  predicate ResetRule(pc: PC, d: Data, pc': PC, d': Data) {
    && (d'.reset != d.reset ==> HoldsR(pc))
    && (d'.reset && !d.reset ==> pc' == InRaise(RaiseNotify))
    && (!d'.reset && d.reset ==> pc' == InReset(ResetNotify))
    && (pc' == InConnect(ConnectWaiting(false)) ==> d.reset && d' == d)
    && (pc' == InReset(ResetWaiting(false)) ==> !d.reset && d' == d)
    && (Resetting(pc') ==> d'.reset == d.reset && (Resetting(pc) || d.reset))
    && pc'.InReset? == pc.InReset?
  }

  /** Locks are taken in the order P < R < D: nobody takes one while holding it or a later one. */
  predicate LockRule(pc: PC, pc': PC) {
    && (HoldsP(pc') && !HoldsP(pc) ==> !HoldsR(pc) && !HoldsD(pc) && !HoldsR(pc') && !HoldsD(pc'))
    && (HoldsR(pc') && !HoldsR(pc) ==> !HoldsD(pc) && !HoldsD(pc'))
  }

  predicate DataRules(pc: PC, d: Data, pc': PC, d': Data) {
    ConnectedRule(pc, d, pc', d') && DeviceRule(pc, d, pc', d') && NodeRule(pc, d, pc', d')
  }

  predicate Rules(pc: PC, d: Data, pc': PC, d': Data) {
    DataRules(pc, d, pc', d') && ResetRule(pc, d, pc', d') && LockRule(pc, pc')
  }

  lemma ConnectObeys(c: ConnectPC, d: Data, pc': PC, d': Data)
    requires ConnectStep(c, d, pc', d')
    ensures Rules(InConnect(c), d, pc', d')
  {
  }

  lemma SelectData(setup: Setup, c: SelectPC, d: Data, pc': PC, d': Data)
    requires SelectStep(setup, c, d, pc', d')
    ensures DataRules(InSelect(c), d, pc', d')
  {
  }

  lemma SelectLocks(setup: Setup, c: SelectPC, d: Data, pc': PC, d': Data)
    requires SelectStep(setup, c, d, pc', d')
    ensures ResetRule(InSelect(c), d, pc', d') && LockRule(InSelect(c), pc')
  {
  }

  lemma SelectObeys(setup: Setup, c: SelectPC, d: Data, pc': PC, d': Data)
    requires SelectStep(setup, c, d, pc', d')
    ensures Rules(InSelect(c), d, pc', d')
  {
    hide SelectStep, DataRules, ResetRule, LockRule;
    SelectData(setup, c, d, pc', d');
    SelectLocks(setup, c, d, pc', d');
  }

  lemma InitConnects(setup: Setup, c: InitPC, d: Data, pc': PC, d': Data)
    requires InitStep(setup, c, d, pc', d')
    ensures ConnectedRule(InInit(c), d, pc', d')
  {
    if c.InitVerdict? {
      LidarIsKept(d, c.camera, c.lidar);
    }
    hide Judged;
  }

  lemma InitDevices(setup: Setup, c: InitPC, d: Data, pc': PC, d': Data)
    requires InitStep(setup, c, d, pc', d')
    ensures DeviceRule(InInit(c), d, pc', d')
  {
  }

  lemma InitNodes(setup: Setup, c: InitPC, d: Data, pc': PC, d': Data)
    requires InitStep(setup, c, d, pc', d')
    ensures NodeRule(InInit(c), d, pc', d')
  {
  }

  lemma InitResets(setup: Setup, c: InitPC, d: Data, pc': PC, d': Data)
    requires InitStep(setup, c, d, pc', d')
    ensures ResetRule(InInit(c), d, pc', d')
  {
  }

  lemma InitLocks(setup: Setup, c: InitPC, d: Data, pc': PC, d': Data)
    requires InitStep(setup, c, d, pc', d')
    ensures LockRule(InInit(c), pc')
  {
  }

  lemma InitObeys(setup: Setup, c: InitPC, d: Data, pc': PC, d': Data)
    requires InitStep(setup, c, d, pc', d')
    ensures Rules(InInit(c), d, pc', d')
  {
    hide InitStep, ConnectedRule, DeviceRule, NodeRule, ResetRule, LockRule;
    InitConnects(setup, c, d, pc', d');
    InitDevices(setup, c, d, pc', d');
    InitNodes(setup, c, d, pc', d');
    InitResets(setup, c, d, pc', d');
    InitLocks(setup, c, d, pc', d');
  }

  lemma RaiseObeys(c: RaisePC, d: Data, pc': PC, d': Data)
    requires RaiseStep(c, d, pc', d')
    ensures Rules(InRaise(c), d, pc', d')
  {
  }

  lemma ResetData(r: ResetPC, d: Data, r': ResetPC, d': Data)
    requires ResetStep(r, d, r', d')
    ensures DataRules(InReset(r), d, InReset(r'), d')
  {
  }

  lemma ResetLocks(r: ResetPC, d: Data, r': ResetPC, d': Data)
    requires ResetStep(r, d, r', d')
    ensures ResetRule(InReset(r), d, InReset(r'), d') && LockRule(InReset(r), InReset(r'))
  {
  }

  lemma ResetObeys(r: ResetPC, d: Data, r': ResetPC, d': Data)
    requires ResetStep(r, d, r', d')
    ensures Rules(InReset(r), d, InReset(r'), d')
  {
    hide ResetStep, DataRules, ResetRule, LockRule;
    ResetData(r, d, r', d');
    ResetLocks(r, d, r', d');
  }

  lemma ServiceData(c: ServicePC, d: Data, pc': PC, d': Data)
    requires ServiceStep(c, d, pc', d')
    ensures DataRules(InService(c), d, pc', d')
  {
  }

  lemma ServiceResets(c: ServicePC, d: Data, pc': PC, d': Data)
    requires ServiceStep(c, d, pc', d')
    ensures ResetRule(InService(c), d, pc', d')
  {
  }

  lemma ServiceLocks(c: ServicePC, d: Data, pc': PC, d': Data)
    requires ServiceStep(c, d, pc', d')
    ensures LockRule(InService(c), pc')
  {
    match c
    case RebootWantP =>
    case RebootWantR =>
    case RebootWantD =>
    case StatusTry =>
    case _ =>
  }

  lemma ServiceObeys(c: ServicePC, d: Data, pc': PC, d': Data)
    requires ServiceStep(c, d, pc', d')
    ensures Rules(InService(c), d, pc', d')
  {
    hide ServiceStep, DataRules, ResetRule, LockRule;
    ServiceData(c, d, pc', d');
    ServiceResets(c, d, pc', d');
    ServiceLocks(c, d, pc', d');
  }

  lemma EveryStepObeys(setup: Setup, pc: PC, d: Data, pc': PC, d': Data)
    requires Local(setup, pc, d, pc', d')
    ensures Rules(pc, d, pc', d')
  {
    match pc
    case Idle =>
    case InConnect(c) => ConnectObeys(c, d, pc', d');
    case InSelect(c) => SelectObeys(setup, c, d, pc', d');
    case InInit(c) => InitObeys(setup, c, d, pc', d');
    case InRaise(c) => RaiseObeys(c, d, pc', d');
    case InReset(r) => ResetObeys(r, d, pc'.reset, d');
    case InService(v) => ServiceObeys(v, d, pc', d');
  }

  lemma NotifiedKeeps(pc: PC)
    ensures HoldsP(Notified(pc)) == HoldsP(pc) && HoldsR(Notified(pc)) == HoldsR(pc)
    ensures HoldsD(Notified(pc)) == HoldsD(pc)
    ensures Connecting(Notified(pc)) == Connecting(pc) && Dismantling(Notified(pc)) == Dismantling(pc)
    ensures HasDevice(Notified(pc)) == HasDevice(pc) && Resetting(Notified(pc)) == Resetting(pc)
    ensures Notified(pc).InReset? == pc.InReset?
  {
  }

  /** What the other threads hold and do is not changed by a step of thread t. */
  lemma OthersSame(s: State, t: nat, s': State, u: nat)
    requires Next(s, t, s') && u < |s.pcs| && u != t
    ensures HoldsP(s'.pcs[u]) == HoldsP(s.pcs[u]) && HoldsR(s'.pcs[u]) == HoldsR(s.pcs[u])
    ensures HoldsD(s'.pcs[u]) == HoldsD(s.pcs[u])
    ensures Connecting(s'.pcs[u]) == Connecting(s.pcs[u]) && Dismantling(s'.pcs[u]) == Dismantling(s.pcs[u])
    ensures HasDevice(s'.pcs[u]) == HasDevice(s.pcs[u]) && Resetting(s'.pcs[u]) == Resetting(s.pcs[u])
    ensures s'.pcs[u].InReset? == s.pcs[u].InReset?
  {
    hide Local, LocksAllow, HoldsP, HoldsR, HoldsD, Connecting, Dismantling, HasDevice, Resetting;
    NotifiedKeeps(s.pcs[u]);
  }

  lemma InitInv(s: State)
    requires Init(s)
    ensures Inv(s)
  {
  }

  lemma KeepsExclusive(s: State, t: nat, s': State)
    requires Exclusive(s) && Next(s, t, s')
    ensures Exclusive(s')
  {
    hide Local, HoldsP, HoldsR, HoldsD, Notified, Notifies;
    forall u | 0 <= u < |s.pcs| && u != t
      ensures HoldsP(s'.pcs[u]) == HoldsP(s.pcs[u]) && HoldsR(s'.pcs[u]) == HoldsR(s.pcs[u])
              && HoldsD(s'.pcs[u]) == HoldsD(s.pcs[u])
    {
      OthersSame(s, t, s', u);
    }
  }

  /** A connecting thread holds P, a thread that changes the device holds D, a resetting one holds R. */
  lemma WorkersHold(pc: PC)
    ensures Connecting(pc) ==> HoldsP(pc)
    ensures HasDevice(pc) || Dismantling(pc) ==> HoldsD(pc)
    ensures Resetting(pc) ==> HoldsR(pc)
    ensures AtVerdict(pc) ==> Connecting(pc)
  {
  }

  /** No connecting thread sees device_connected_ set. */
  lemma KeepsConnecting(s: State, t: nat, s': State)
    requires Exclusive(s) && Consistent(s) && Next(s, t, s')
    ensures forall u | 0 <= u < |s'.pcs| && Connecting(s'.pcs[u]) :: !s'.data.connected
  {
    hide Local, LocksAllow, Connecting, HoldsP, HoldsR, HoldsD, Dismantling, HasDevice, Resetting,
      DeviceRule, NodeRule, ResetRule, LockRule, Notified, Notifies;
    EveryStepObeys(s.setup, s.pcs[t], s.data, s'.pcs[t], s'.data);
    WorkersHold(s.pcs[t]);
    forall u | 0 <= u < |s'.pcs| && Connecting(s'.pcs[u])
      ensures !s'.data.connected
    {
      if u != t {
        OthersSame(s, t, s', u);
        WorkersHold(s.pcs[u]);
      }
    }
  }

  /** device_ stays set from its assignment to the verdict. */
  lemma KeepsDevice(s: State, t: nat, s': State)
    requires Exclusive(s) && Consistent(s) && Next(s, t, s')
    ensures forall u | 0 <= u < |s'.pcs| && HasDevice(s'.pcs[u]) :: s'.data.device
  {
    hide Local, LocksAllow, Connecting, HoldsP, HoldsR, HoldsD, Dismantling, HasDevice, Resetting,
      ConnectedRule, NodeRule, ResetRule, LockRule, Notified, Notifies;
    EveryStepObeys(s.setup, s.pcs[t], s.data, s'.pcs[t], s'.data);
    forall u | 0 <= u < |s'.pcs| && HasDevice(s'.pcs[u])
      ensures s'.data.device
    {
      if u != t {
        OthersSame(s, t, s', u);
        WorkersHold(s.pcs[u]);
      }
    }
  }

  /** A request is there as long as the reset thread is at work on it. */
  lemma KeepsRequest(s: State, t: nat, s': State)
    requires Exclusive(s) && Consistent(s) && Next(s, t, s')
    ensures forall u | 0 <= u < |s'.pcs| && Resetting(s'.pcs[u]) :: s'.data.reset
  {
    hide Local, LocksAllow, Connecting, HoldsP, HoldsR, HoldsD, Dismantling, HasDevice, Resetting,
      ConnectedRule, DeviceRule, NodeRule, LockRule, Notified, Notifies;
    EveryStepObeys(s.setup, s.pcs[t], s.data, s'.pcs[t], s'.data);
    forall u | 0 <= u < |s'.pcs| && Resetting(s'.pcs[u])
      ensures s'.data.reset
    {
      if u != t {
        OthersSame(s, t, s', u);
        WorkersHold(s.pcs[u]);
      }
    }
  }

  /** Whoever is connected has a device and a node, unless the reset thread is at work on them. */
  lemma KeepsNodes(s: State, t: nat, s': State)
    requires Consistent(s) && Next(s, t, s')
    ensures s'.data.connected ==> (s'.data.device && (s'.data.camera || s'.data.lidar))
                                  || exists u | 0 <= u < |s'.pcs| :: Dismantling(s'.pcs[u])
  {
    hide Local, LocksAllow, Connecting, HoldsP, HoldsR, HoldsD, Dismantling, Resetting,
      ResetRule, LockRule, Notified, Notifies;
    EveryStepObeys(s.setup, s.pcs[t], s.data, s'.pcs[t], s'.data);
    if s'.data.connected && s.data.connected && exists u | 0 <= u < |s.pcs| :: Dismantling(s.pcs[u]) {
      var u :| 0 <= u < |s.pcs| && Dismantling(s.pcs[u]);
      if u != t {
        OthersSame(s, t, s', u);
      }
    }
  }

  lemma KeepsWakeups(s: State, t: nat, s': State)
    requires NoLostWakeup(s) && Next(s, t, s')
    ensures NoLostWakeup(s')
  {
    hide Local, LocksAllow, Connecting, HoldsP, HoldsR, HoldsD, Dismantling, Resetting,
      ConnectedRule, DeviceRule, NodeRule, LockRule;
    EveryStepObeys(s.setup, s.pcs[t], s.data, s'.pcs[t], s'.data);
    forall u | 0 <= u < |s'.pcs| && s'.pcs[u] == InConnect(ConnectWaiting(false))
      ensures s'.data.reset || exists v | 0 <= v < |s'.pcs| :: s'.pcs[v] == InReset(ResetNotify)
    {
      if u != t && !s.data.reset {
        var v :| 0 <= v < |s.pcs| && s.pcs[v] == InReset(ResetNotify);
        assert s'.pcs[v] == InReset(ResetNotify);
      }
    }
    forall u | 0 <= u < |s'.pcs| && s'.pcs[u] == InReset(ResetWaiting(false))
      ensures !s'.data.reset || exists v | 0 <= v < |s'.pcs| :: s'.pcs[v] == InRaise(RaiseNotify)
    {
      if u != t && s.data.reset {
        var v :| 0 <= v < |s.pcs| && s.pcs[v] == InRaise(RaiseNotify);
        assert s'.pcs[v] == InRaise(RaiseNotify);
      }
    }
  }

  /** Every step of every thread keeps the invariant, for any number of threads. */
  lemma NextKeepsInv(s: State, t: nat, s': State)
    requires Inv(s) && Next(s, t, s')
    ensures Inv(s')
  {
    hide Next, Connecting, Dismantling, HasDevice, Resetting, NoLostWakeup, Exclusive;
    KeepsExclusive(s, t, s');
    KeepsConnecting(s, t, s');
    KeepsDevice(s, t, s');
    KeepsRequest(s, t, s');
    KeepsNodes(s, t, s');
    KeepsWakeups(s, t, s');
  }

  /** A run: thread who[i] takes the step from run[i] to run[i + 1]. */
  ghost predicate IsRun(run: seq<State>, who: seq<nat>) {
    |run| == |who| + 1 && forall i | 0 <= i < |who| :: Next(run[i], who[i], run[i + 1])
  }

  lemma {:induction false} RunKeepsInv(run: seq<State>, who: seq<nat>)
    requires IsRun(run, who) && Inv(run[0])
    ensures Inv(run[|who|])
    ensures |run[|who|].pcs| == |run[0].pcs|
  {
    hide Inv;
    if |who| > 0 {
      var m := |who| - 1;
      RunKeepsInv(run[..|who|], who[..m]);
      assert Next(run[m], who[m], run[m + 1]);
      NextKeepsInv(run[m], who[m], run[m + 1]);
    }
  }

  /** The promise of the driver, in every reachable state: with D free, being connected means having a
      device and a node; and a connecting thread never finds device_connected_ set at its verdict. */
  lemma ConnectedMeansDevice(run: seq<State>, who: seq<nat>)
    requires IsRun(run, who) && Init(run[0])
    ensures var s := run[|who|];
            && (FreeD(s) && s.data.connected ==> s.data.device && (s.data.camera || s.data.lidar))
            && (forall t | 0 <= t < |s.pcs| && AtVerdict(s.pcs[t]) :: !s.data.connected)
  {
    InitInv(run[0]);
    RunKeepsInv(run, who);
    hide IsRun, Connecting, HoldsD, HasDevice, Init;
    var s := run[|who|];
    forall t | 0 <= t < |s.pcs|
      ensures Dismantling(s.pcs[t]) ==> HoldsD(s.pcs[t])
      ensures AtVerdict(s.pcs[t]) ==> Connecting(s.pcs[t])
    {
      WorkersHold(s.pcs[t]);
    }
  }

  /* What is there and what is gone at certain places. */

  /** Only nodes of the configured type are ever made. */
  predicate Kinds(setup: Setup, d: Data) {
    (d.camera ==> setup.kind == CameraKind) && (d.lidar ==> setup.kind == LidarKind)
  }

  /** What a thread that holds D can rely on. */
  predicate TidyUnderD(setup: Setup, pc: PC, d: Data) {
    && (pc == InReset(ResetDevice) ==> !d.camera && !d.lidar)
    && (pc == InReset(ResetConnected) ==> !d.camera && !d.lidar && !d.device)
    && (pc == InReset(ResetUnlockD) ==> !d.camera && !d.lidar && !d.device && !d.connected)
    && (pc == InSelect(SelectUnlockClear) ==> !d.camera && !d.device)
    && (pc == InInit(InitNode) ==> !d.camera && !d.lidar)
    && (AtVerdict(pc) ==> d.camera == (setup.kind == CameraKind) && d.lidar == (setup.kind == LidarKind))
  }

  /** What a thread that holds R can rely on. */
  predicate TidyUnderR(pc: PC, d: Data) {
    && (pc == InConnect(ConnectUnlockR) ==> !d.reset)
    && (pc == InRaise(RaiseNotify) || pc == InRaise(RaiseUnlockR) ==> d.reset)
    && (pc == InReset(ResetNotify) || pc == InReset(ResetUnlockR) ==> !d.reset)
    && (pc == InService(StatusUse) ==> !d.reset)
  }

  ghost predicate Tidy(s: State) {
    && Kinds(s.setup, s.data)
    && (forall t | 0 <= t < |s.pcs| :: TidyUnderD(s.setup, s.pcs[t], s.data))
    && (forall t | 0 <= t < |s.pcs| :: TidyUnderR(s.pcs[t], s.data))
  }

  /** Contents change, and device_connected_ rises, only with D held. */
  predicate ContentRule(pc: PC, d: Data, d': Data) {
    d'.device != d.device || d'.camera != d.camera || d'.lidar != d.lidar || (d'.connected && !d.connected)
    ==> HoldsD(pc)
  }

  lemma SelectContents(setup: Setup, c: SelectPC, d: Data, pc': PC, d': Data)
    requires SelectStep(setup, c, d, pc', d') && Kinds(setup, d)
    ensures ContentRule(InSelect(c), d, d') && Kinds(setup, d')
  {
  }

  lemma SelectTidyD(setup: Setup, c: SelectPC, d: Data, pc': PC, d': Data)
    requires SelectStep(setup, c, d, pc', d') && Kinds(setup, d)
    ensures TidyUnderD(setup, pc', d')
  {
  }

  lemma SelectTidyR(setup: Setup, c: SelectPC, d: Data, pc': PC, d': Data)
    requires SelectStep(setup, c, d, pc', d') && Kinds(setup, d)
    ensures TidyUnderR(pc', d')
  {
  }

  lemma InitContents(setup: Setup, c: InitPC, d: Data, pc': PC, d': Data)
    requires InitStep(setup, c, d, pc', d') && Kinds(setup, d) && TidyUnderD(setup, InInit(c), d)
    ensures ContentRule(InInit(c), d, d') && Kinds(setup, d')
  {
    if c.InitVerdict? {
      LidarIsKept(d, c.camera, c.lidar);
    }
    hide Judged;
  }

  lemma InitTidyD(setup: Setup, c: InitPC, d: Data, pc': PC, d': Data)
    requires InitStep(setup, c, d, pc', d') && Kinds(setup, d) && TidyUnderD(setup, InInit(c), d)
    ensures TidyUnderD(setup, pc', d')
  {
    if c.InitVerdict? {
      LidarIsKept(d, c.camera, c.lidar);
    }
    hide Judged;
  }

  lemma InitTidyR(setup: Setup, c: InitPC, d: Data, pc': PC, d': Data)
    requires InitStep(setup, c, d, pc', d') && Kinds(setup, d) && TidyUnderD(setup, InInit(c), d)
    ensures TidyUnderR(pc', d')
  {
    if c.InitVerdict? {
      LidarIsKept(d, c.camera, c.lidar);
    }
    hide Judged;
  }

  lemma ResetContents(setup: Setup, r: ResetPC, d: Data, r': ResetPC, d': Data)
    requires ResetStep(r, d, r', d') && Kinds(setup, d)
    requires TidyUnderD(setup, InReset(r), d) && TidyUnderR(InReset(r), d)
    ensures ContentRule(InReset(r), d, d') && Kinds(setup, d')
  {
  }

  lemma ResetTidyD(setup: Setup, r: ResetPC, d: Data, r': ResetPC, d': Data)
    requires ResetStep(r, d, r', d') && Kinds(setup, d)
    requires TidyUnderD(setup, InReset(r), d) && TidyUnderR(InReset(r), d)
    ensures TidyUnderD(setup, InReset(r'), d')
  {
  }

  lemma ResetTidyR(setup: Setup, r: ResetPC, d: Data, r': ResetPC, d': Data)
    requires ResetStep(r, d, r', d') && Kinds(setup, d)
    requires TidyUnderD(setup, InReset(r), d) && TidyUnderR(InReset(r), d)
    ensures TidyUnderR(InReset(r'), d')
  {
  }

  lemma OtherContents(setup: Setup, pc: PC, d: Data, pc': PC, d': Data)
    requires Local(setup, pc, d, pc', d') && Kinds(setup, d)
    requires pc == Idle || pc.InConnect? || pc.InRaise? || pc.InService?
    ensures ContentRule(pc, d, d') && Kinds(setup, d')
  {
  }

  lemma OtherTidyD(setup: Setup, pc: PC, d: Data, pc': PC, d': Data)
    requires Local(setup, pc, d, pc', d') && Kinds(setup, d)
    requires pc == Idle || pc.InConnect? || pc.InRaise? || pc.InService?
    ensures TidyUnderD(setup, pc', d')
  {
  }

  lemma OtherTidyR(setup: Setup, pc: PC, d: Data, pc': PC, d': Data)
    requires Local(setup, pc, d, pc', d') && Kinds(setup, d) && TidyUnderR(pc, d)
    requires pc == Idle || pc.InConnect? || pc.InRaise? || pc.InService?
    ensures TidyUnderR(pc', d')
  {
  }

  lemma EveryStepTidies(setup: Setup, pc: PC, d: Data, pc': PC, d': Data)
    requires Local(setup, pc, d, pc', d') && Kinds(setup, d) && TidyUnderD(setup, pc, d) && TidyUnderR(pc, d)
    ensures ContentRule(pc, d, d') && Kinds(setup, d') && TidyUnderD(setup, pc', d') && TidyUnderR(pc', d')
  {
    hide ConnectStep, SelectStep, InitStep, RaiseStep, ResetStep, ServiceStep, Kinds, TidyUnderD, TidyUnderR,
      ContentRule;
    match pc
    case InSelect(c) =>
      SelectContents(setup, c, d, pc', d');
      SelectTidyD(setup, c, d, pc', d');
      SelectTidyR(setup, c, d, pc', d');
    case InInit(c) =>
      InitContents(setup, c, d, pc', d');
      InitTidyD(setup, c, d, pc', d');
      InitTidyR(setup, c, d, pc', d');
    case InReset(r) =>
      ResetContents(setup, r, d, pc'.reset, d');
      ResetTidyD(setup, r, d, pc'.reset, d');
      ResetTidyR(setup, r, d, pc'.reset, d');
    case _ =>
      OtherContents(setup, pc, d, pc', d');
      OtherTidyD(setup, pc, d, pc', d');
      OtherTidyR(setup, pc, d, pc', d');
  }

  /** A step of another thread does not disturb that. */
  lemma OthersTidy(setup: Setup, pc: PC, d: Data, d': Data, other: PC)
    requires TidyUnderD(setup, other, d) && TidyUnderR(other, d)
    requires ContentRule(pc, d, d') && (d'.reset != d.reset ==> HoldsR(pc))
    requires !(HoldsD(pc) && HoldsD(other)) && !(HoldsR(pc) && HoldsR(other))
    ensures TidyUnderD(setup, other, d') && TidyUnderR(other, d')
    ensures TidyUnderD(setup, Notified(other), d') && TidyUnderR(Notified(other), d')
  {
  }

  lemma KeepsTidy(s: State, t: nat, s': State)
    requires Exclusive(s) && Tidy(s) && Next(s, t, s')
    ensures Tidy(s')
  {
    hide Local, LocksAllow, HoldsP, HoldsR, HoldsD, TidyUnderD, TidyUnderR, Kinds, ContentRule, Notified, Notifies,
      ConnectedRule, DeviceRule, NodeRule, LockRule, Resetting;
    EveryStepTidies(s.setup, s.pcs[t], s.data, s'.pcs[t], s'.data);
    EveryStepObeys(s.setup, s.pcs[t], s.data, s'.pcs[t], s'.data);
    forall u | 0 <= u < |s.pcs| && u != t
      ensures TidyUnderD(s'.setup, s'.pcs[u], s'.data) && TidyUnderR(s'.pcs[u], s'.data)
    {
      OthersTidy(s.setup, s.pcs[t], s.data, s'.data, s.pcs[u]);
    }
  }

  lemma {:induction false} RunKeepsTidy(run: seq<State>, who: seq<nat>)
    requires IsRun(run, who) && Init(run[0])
    ensures Inv(run[|who|]) && Tidy(run[|who|])
  {
    hide Inv, Init, Tidy;
    InitInv(run[0]);
    InitTidy(run[0]);
    RunKeepsInv(run, who);
    if |who| > 0 {
      var m := |who| - 1;
      RunKeepsTidy(run[..|who|], who[..m]);
      assert Next(run[m], who[m], run[m + 1]);
      hide Next;
      InvExclusive(run[m]);
      KeepsTidy(run[m], who[m], run[m + 1]);
    }
  }

  lemma InitTidy(s: State)
    requires Init(s)
    ensures Tidy(s)
  {
  }

  lemma InvExclusive(s: State)
    requires Inv(s)
    ensures Exclusive(s)
  {
  }

  /** When the reset thread is about to give D back, nothing of the old connection is left, whether it was a camera or
      a lidar: no node, no device, not connected; the request is still pending. When it notifies, the request is
      cleared; and no connect callback gets past its first wait while a request is pending. */
  lemma ResetLeavesNothing(run: seq<State>, who: seq<nat>, t: nat)
    requires IsRun(run, who) && Init(run[0]) && t < |run[|who|].pcs|
    ensures run[|who|].pcs[t] == InReset(ResetUnlockD) ==> run[|who|].data == Data(true, false, false, false, false)
    ensures run[|who|].pcs[t] == InReset(ResetNotify) ==> !run[|who|].data.reset
    ensures run[|who|].pcs[t] == InConnect(ConnectUnlockR) ==> !run[|who|].data.reset
  {
    hide Init, Exclusive, NoLostWakeup;
    RunKeepsTidy(run, who);
    var s := run[|who|];
    assert Resetting(InReset(ResetUnlockD));
    assert TidyUnderD(s.setup, s.pcs[t], s.data) && TidyUnderR(s.pcs[t], s.data);
  }

  /** At the verdict of a connection there are the new device and exactly one node, of the configured type, unless the
      type is neither of the two; and nothing is connected. */
  lemma VerdictOnNewNode(run: seq<State>, who: seq<nat>, t: nat)
    requires IsRun(run, who) && Init(run[0]) && t < |run[|who|].pcs| && AtVerdict(run[|who|].pcs[t])
    ensures var s := run[|who|];
            s.data == Data(s.data.reset, false, true, s.setup.kind == CameraKind, s.setup.kind == LidarKind)
  {
    hide Init, Exclusive, NoLostWakeup;
    RunKeepsTidy(run, who);
    var s := run[|who|];
    assert TidyUnderD(s.setup, s.pcs[t], s.data);
    assert Connecting(s.pcs[t]) && HasDevice(s.pcs[t]);
  }

  /** The status timer comes to use the camera node if and only if there is one and no reset is pending; and while it
      uses it none is pending and the reset thread is not at work. */
  lemma StatusExactly(run: seq<State>, who: seq<nat>, u: nat, t: nat, s': State)
    requires IsRun(run, who) && Init(run[0]) && u < |run[|who|].pcs|
    ensures var s := run[|who|];
            && (s.pcs[u] == InService(StatusAsk) && Next(s, u, s') ==>
                  (s'.pcs[u] == InService(StatusUse) <==> s.data.camera && !s.data.reset))
            && (s.pcs[u] == InService(StatusUse) && t < |s.pcs| ==> !s.data.reset && !Resetting(s.pcs[t]))
  {
    hide Init, Exclusive, NoLostWakeup, Kinds, TidyUnderD;
    RunKeepsTidy(run, who);
    var s := run[|who|];
    assert TidyUnderR(s.pcs[u], s.data);
  }

  /** While the device is rebooted no other thread connects, resets or dismantles. */
  lemma RebootAlone(run: seq<State>, who: seq<nat>, t: nat, u: nat)
    requires IsRun(run, who) && Init(run[0]) && t < |run[|who|].pcs| && u < |run[|who|].pcs| && u != t
    requires run[|who|].pcs[t] == InService(Reboot)
    ensures var pc := run[|who|].pcs[u]; !Connecting(pc) && !Resetting(pc) && !Dismantling(pc) && !HasDevice(pc)
  {
    hide Init, Tidy, Consistent, NoLostWakeup, Connecting, Resetting, Dismantling, HasDevice;
    RunKeepsTidy(run, who);
    WorkersHold(run[|who|].pcs[u]);
    assert HoldsP(InService(Reboot)) && HoldsR(InService(Reboot)) && HoldsD(InService(Reboot));
  }

  /** A connect callback that finds the device connected changes nothing and does not get to select a device. */
  lemma ConnectedIsLeft(s: State, t: nat, s': State)
    requires Next(s, t, s') && s.pcs[t].InConnect? && s.data.connected
    ensures s'.data == s.data && !s'.pcs[t].InSelect? && !s'.pcs[t].InInit?
    ensures s.pcs[t].connect == ConnectTestOnce ==> s'.pcs[t] == Idle
  {
  }

  /** An exception has left the connect callback, or a disconnect callback has begun, and no request is made yet. */
  predicate Failing(pc: PC) {
    pc == InInit(UnwindD) || pc == InInit(UnwindP) || pc == InRaise(RaiseWantR) || pc == InRaise(RaiseSet)
  }

  lemma FailingStep(s: State, t: nat, s': State, u: nat)
    requires Next(s, t, s') && u < |s.pcs| && Failing(s.pcs[u])
    ensures Failing(s'.pcs[u]) || (s'.pcs[u] == InRaise(RaiseNotify) && s'.data.reset)
  {
    hide ConnectStep, SelectStep, ResetStep, ServiceStep, HoldsP, HoldsR, HoldsD;
  }

  /** Such a callback does not end before it has requested a reset. */
  lemma {:induction false} FailureRequestsReset(run: seq<State>, who: seq<nat>, u: nat) returns (k: nat)
    requires IsRun(run, who) && u < |run[0].pcs| && Failing(run[0].pcs[u])
    requires u < |run[|who|].pcs| && !Failing(run[|who|].pcs[u])
    ensures k <= |who| && u < |run[k].pcs| && run[k].pcs[u] == InRaise(RaiseNotify) && run[k].data.reset
  {
    var m := |who| - 1;
    assert Next(run[m], who[m], run[m + 1]);
    hide Next, Failing;
    SameThreads(run[m], who[m], run[m + 1]);
    if Failing(run[m].pcs[u]) {
      FailingStep(run[m], who[m], run[m + 1], u);
      k := |who|;
    } else {
      k := FailureRequestsReset(run[..|who|], who[..m], u);
    }
  }

  lemma SameThreads(s: State, t: nat, s': State)
    requires Next(s, t, s')
    ensures |s'.pcs| == |s.pcs|
  {
  }

  /** The connection timer leaves a connected device alone, unless it looks just when the reset thread has taken the
      node away and not yet cleared device_connected_. */
  lemma TimerExactly(run: seq<State>, who: seq<nat>, u: nat, s': State)
    requires IsRun(run, who) && Init(run[0]) && u < |run[|who|].pcs|
    requires run[|who|].pcs[u] == InService(TimerNodes) && run[|who|].data.connected && Next(run[|who|], u, s')
    ensures var s := run[|who|];
            && s'.data == s.data
            && s'.pcs[u] == (if s.data.camera || s.data.lidar then Idle else InService(TimerClear))
            && (s'.pcs[u] == InService(TimerClear) <==> exists t :: 0 <= t < |s.pcs| && Dismantling(s.pcs[t]))
  {
    hide Init, Exclusive, NoLostWakeup, Kinds, TidyUnderR;
    RunKeepsTidy(run, who);
    var s := run[|who|];
    assert forall t | 0 <= t < |s.pcs| && Dismantling(s.pcs[t]) :: TidyUnderD(s.setup, s.pcs[t], s.data);
  }

  /* deviceStatusTimer uses the camera node with R held, but the threads that take the node away when a
     connection begins or fails hold P and D. */

  /** A thread whose next step can take the camera node away. */
  predicate TakesNode(pc: PC, d: Data) {
    || pc == InSelect(SelectClear)
    || pc == InInit(InitClean)
    || (AtVerdict(pc) && !Judged(d, pc.init.camera, pc.init.lidar).camera)
  }

  lemma TakingStep(setup: Setup, pc: PC, d: Data, pc': PC, d': Data)
    requires Local(setup, pc, d, pc', d') && d.camera && !d'.camera
    ensures TakesNode(pc, d) || pc == InReset(ResetNodes)
  {
    match pc
    case InSelect(c) =>
    case InInit(c) => InitTakes(setup, c, d, pc', d');
    case _ =>
  }

  lemma InitTakes(setup: Setup, c: InitPC, d: Data, pc': PC, d': Data)
    requires InitStep(setup, c, d, pc', d') && d.camera && !d'.camera
    ensures TakesNode(InInit(c), d)
  {
    hide Judged;
  }

  /** While the status timer uses the camera node, the next step can take it away exactly if a connecting thread
      stands where it takes the node away; and then device_connected_ is false. */
  lemma NodeTakenExactly(s: State, u: nat)
    requires Inv(s) && u < |s.pcs| && s.pcs[u] == InService(StatusUse) && s.data.camera
    ensures (exists t: nat, s' :: Next(s, t, s') && !s'.data.camera)
            <==> exists t: nat :: t < |s.pcs| && TakesNode(s.pcs[t], s.data)
    ensures (exists t: nat, s' :: Next(s, t, s') && !s'.data.camera) ==> !s.data.connected
  {
    hide Local, Judged, NoLostWakeup, Connecting, Dismantling, HasDevice, Resetting;
    forall t: nat, s' | Next(s, t, s') && !s'.data.camera
      ensures t < |s.pcs| && TakesNode(s.pcs[t], s.data) && !s.data.connected
    {
      TakingStep(s.setup, s.pcs[t], s.data, s'.pcs[t], s'.data);
      TakersConnect(s.pcs[t], s.data);
      assert HoldsR(s.pcs[u]);
    }
    if t: nat :| t < |s.pcs| && TakesNode(s.pcs[t], s.data) {
      var s' := TakeNode(s, t);
    }
  }

  lemma TakersConnect(pc: PC, d: Data)
    ensures TakesNode(pc, d) ==> Connecting(pc)
  {
  }

  lemma TakeNode(s: State, t: nat) returns (s': State)
    requires t < |s.pcs| && TakesNode(s.pcs[t], s.data) && s.data.camera
    ensures Next(s, t, s') && !s'.data.camera && |s'.pcs| == |s.pcs|
    ensures forall u | 0 <= u < |s.pcs| && u != t :: s'.pcs[u] == s.pcs[u]
  {
    var pc, d := s.pcs[t], s.data;
    var pc' := if pc == InSelect(SelectClear) then InSelect(SelectUnlockClear)
               else if pc == InInit(InitClean) then InInit(InitNode) else InInit(InitUnlockD);
    var d' := if pc == InSelect(SelectClear) then d.(camera := false, device := false)
              else if pc == InInit(InitClean) then d.(camera := false)
              else Judged(d, pc.init.camera, pc.init.lidar);
    assert Local(s.setup, pc, d, pc', d') by {
      hide Judged;
    }
    s' := State(s.setup, d', s.pcs[t := pc']);
  }

  /** There is a run from `a` to `b`. */
  ghost predicate Reaches(a: State, b: State) {
    exists run, who :: IsRun(run, who) && run[0] == a && run[|who|] == b
  }

  lemma ReachesStep(a: State, s: State, t: nat, s': State)
    requires Reaches(a, s) && Next(s, t, s')
    ensures Reaches(a, s')
  {
    hide Next;
    var run, who :| IsRun(run, who) && run[0] == a && run[|who|] == s;
    assert IsRun(run + [s'], who + [t]);
  }

  /* A run of three threads: thread 0 is the reset thread, thread 1 connects, thread 2 is the status timer. */

  const CAMERAS: Setup := Setup(CameraKind, 1)
  const NOTHING: Data := Data(false, false, false, false, false)
  const DEVICE: Data := NOTHING.(device := true)
  const NODE: Data := DEVICE.(camera := true)
  const CONNECTED: Data := NODE.(connected := true)
  const REQUESTED: Data := CONNECTED.(reset := true)
  const WITHOUT_NODE: Data := REQUESTED.(camera := false)
  const WITHOUT_DEVICE: Data := WITHOUT_NODE.(device := false)
  const CLEARED: Data := WITHOUT_DEVICE.(connected := false)
  const WAITS: PC := InReset(ResetWantR)

  ghost predicate Here(a: State, s: State, d: Data, r: PC, c: PC, v: PC) {
    Reaches(a, s) && s == State(CAMERAS, d, [r, c, v])
  }

  /** A thread that is in the way of nobody. */
  predicate Passive(pc: PC) {
    !HoldsP(pc) && !HoldsR(pc) && !HoldsD(pc) && Notified(pc) == pc
  }

  /** The locks that a step from pc to pc' takes are not held by the two others, and nobody waits. */
  predicate MayMove(pc: PC, pc': PC, o1: PC, o2: PC) {
    && (HoldsP(pc') && !HoldsP(pc) ==> !HoldsP(o1) && !HoldsP(o2))
    && (HoldsR(pc') && !HoldsR(pc) ==> !HoldsR(o1) && !HoldsR(o2))
    && (HoldsD(pc') && !HoldsD(pc) ==> !HoldsD(o1) && !HoldsD(o2))
    && Notified(o1) == o1 && Notified(o2) == o2
  }

  lemma MoveReset(a: State, s: State, d: Data, r: PC, c: PC, v: PC, pc': PC, d': Data) returns (s': State)
    requires Here(a, s, d, r, c, v) && Local(CAMERAS, r, d, pc', d') && Passive(c) && Passive(v)
    ensures Here(a, s', d', pc', c, v)
  {
    hide Reaches, Local, HoldsP, HoldsR, HoldsD, Notified;
    s' := State(CAMERAS, d', [pc', c, v]);
    ReachesStep(a, s, 0, s');
  }

  lemma MoveConnect(a: State, s: State, d: Data, r: PC, c: PC, v: PC, pc': PC, d': Data) returns (s': State)
    requires Here(a, s, d, r, c, v) && Local(CAMERAS, c, d, pc', d') && Passive(r) && Passive(v)
    ensures Here(a, s', d', r, pc', v)
  {
    hide Reaches, Local, HoldsP, HoldsR, HoldsD, Notified;
    s' := State(CAMERAS, d', [r, pc', v]);
    ReachesStep(a, s, 1, s');
  }

  lemma MoveStatus(a: State, s: State, d: Data, r: PC, c: PC, v: PC, pc': PC, d': Data) returns (s': State)
    requires Here(a, s, d, r, c, v) && Local(CAMERAS, v, d, pc', d') && MayMove(v, pc', r, c)
    ensures Here(a, s', d', r, c, pc')
  {
    hide Reaches, Local, HoldsP, HoldsR, HoldsD, Notified;
    s' := State(CAMERAS, d', [r, c, pc']);
    ReachesStep(a, s, 2, s');
  }

  /** A thread of services between two steps that need no lock. */
  predicate Resting(pc: PC) {
    pc == Idle || pc == InService(StatusTry) || pc == InService(TimerNodes) || pc == InService(TimerClear)
  }

  lemma AllPassive(pc: PC)
    requires Resting(pc)
    ensures Passive(WAITS) && Passive(Idle) && Passive(pc)
  {
  }

  lemma RunToLock(a: State, s0: State, status: PC) returns (s: State)
    requires Here(a, s0, NOTHING, WAITS, Idle, status) && Resting(status)
    ensures Here(a, s, NOTHING, WAITS, InConnect(ConnectWantP), status)
  {
    hide Here, SelectStep, InitStep, RaiseStep, ResetStep, ServiceStep, HoldsP, HoldsR, HoldsD, Notified, Passive;
    s := s0;
    AllPassive(status);
    s := MoveConnect(a, s, NOTHING, WAITS, Idle, status, InConnect(ConnectWantR), NOTHING);
    s := MoveConnect(a, s, NOTHING, WAITS, InConnect(ConnectWantR), status, InConnect(ConnectTestReset), NOTHING);
    s := MoveConnect(a, s, NOTHING, WAITS, InConnect(ConnectTestReset), status, InConnect(ConnectUnlockR), NOTHING);
    s := MoveConnect(a, s, NOTHING, WAITS, InConnect(ConnectUnlockR), status, InConnect(ConnectTestOnce), NOTHING);
    s := MoveConnect(a, s, NOTHING, WAITS, InConnect(ConnectTestOnce), status, InConnect(ConnectWantP), NOTHING);
  }

  lemma RunToFound(a: State, s0: State, status: PC) returns (s: State)
    requires Here(a, s0, NOTHING, WAITS, InConnect(ConnectWantP), status) && Resting(status)
    ensures Here(a, s, NOTHING, WAITS, InSelect(SelectFound), status)
  {
    hide Here, InitStep, RaiseStep, ResetStep, ServiceStep, HoldsP, HoldsR, HoldsD, Notified, Passive;
    s := s0;
    AllPassive(status);
    s := MoveConnect(a, s, NOTHING, WAITS, InConnect(ConnectWantP), status, InConnect(ConnectTestTwice), NOTHING);
    s := MoveConnect(a, s, NOTHING, WAITS, InConnect(ConnectTestTwice), status, InSelect(SelectWantClear), NOTHING);
    s := MoveConnect(a, s, NOTHING, WAITS, InSelect(SelectWantClear), status, InSelect(SelectClear), NOTHING);
    s := MoveConnect(a, s, NOTHING, WAITS, InSelect(SelectClear), status, InSelect(SelectUnlockClear), NOTHING);
    s := MoveConnect(a, s, NOTHING, WAITS, InSelect(SelectUnlockClear), status, InSelect(Select), NOTHING);
    s := MoveConnect(a, s, NOTHING, WAITS, InSelect(Select), status, InSelect(SelectFound), NOTHING);
  }

  lemma RunToVerdict(a: State, s0: State, status: PC, initialized: bool) returns (s: State)
    requires Here(a, s0, NOTHING, WAITS, InSelect(SelectFound), status) && Resting(status)
    ensures Here(a, s, NODE, WAITS, InInit(InitVerdict(initialized, false)), status)
  {
    hide Here, ConnectStep, RaiseStep, ResetStep, ServiceStep, HoldsP, HoldsR, HoldsD, Notified, Passive;
    s := s0;
    AllPassive(status);
    s := MoveConnect(a, s, NOTHING, WAITS, InSelect(SelectFound), status, InInit(InitWantD), NOTHING);
    s := MoveConnect(a, s, NOTHING, WAITS, InInit(InitWantD), status, InInit(InitDevice), NOTHING);
    s := MoveConnect(a, s, NOTHING, WAITS, InInit(InitDevice), status, InInit(InitClean), DEVICE);
    s := MoveConnect(a, s, DEVICE, WAITS, InInit(InitClean), status, InInit(InitNode), DEVICE);
    s := MoveConnect(a, s, DEVICE, WAITS, InInit(InitNode), status, InInit(InitVerdict(initialized, false)), NODE);
  }

  lemma RunToConnected(a: State, s0: State, status: PC) returns (s: State)
    requires Here(a, s0, NODE, WAITS, InInit(InitVerdict(true, false)), status) && Resting(status)
    ensures Here(a, s, CONNECTED, WAITS, Idle, status)
  {
    hide Here, SelectStep, RaiseStep, ResetStep, ServiceStep, HoldsP, HoldsR, HoldsD, Notified, Passive;
    s := s0;
    AllPassive(status);
    s := MoveConnect(a, s, NODE, WAITS, InInit(InitVerdict(true, false)), status, InInit(InitUnlockD), CONNECTED);
    s := MoveConnect(a, s, CONNECTED, WAITS, InInit(InitUnlockD), status, InConnect(ConnectUnlockP), CONNECTED);
    s := MoveConnect(a, s, CONNECTED, WAITS, InConnect(ConnectUnlockP), status, Idle, CONNECTED);
  }

  lemma RunToStatus(a: State, s0: State) returns (s: State)
    requires Here(a, s0, CONNECTED, WAITS, Idle, Idle)
    ensures Here(a, s, CONNECTED, WAITS, Idle, InService(StatusTry))
  {
    hide Here, ConnectStep, SelectStep, InitStep, RaiseStep, ResetStep;
    s := s0;
    s := MoveStatus(a, s, CONNECTED, WAITS, Idle, Idle, InService(StatusTest), CONNECTED);
    s := MoveStatus(a, s, CONNECTED, WAITS, Idle, InService(StatusTest), InService(StatusTry), CONNECTED);
  }

  lemma RunToRequest(a: State, s0: State, status: PC) returns (s: State)
    requires Here(a, s0, CONNECTED, WAITS, Idle, status) && Resting(status)
    ensures Here(a, s, REQUESTED, WAITS, Idle, status)
  {
    hide Here, ConnectStep, SelectStep, InitStep, ResetStep, ServiceStep, HoldsP, HoldsR, HoldsD, Notified, Passive;
    s := s0;
    AllPassive(status);
    s := MoveConnect(a, s, CONNECTED, WAITS, Idle, status, InRaise(RaiseWantR), CONNECTED);
    s := MoveConnect(a, s, CONNECTED, WAITS, InRaise(RaiseWantR), status, InRaise(RaiseSet), CONNECTED);
    s := MoveConnect(a, s, CONNECTED, WAITS, InRaise(RaiseSet), status, InRaise(RaiseNotify), REQUESTED);
    s := MoveConnect(a, s, REQUESTED, WAITS, InRaise(RaiseNotify), status, InRaise(RaiseUnlockR), REQUESTED);
    s := MoveConnect(a, s, REQUESTED, WAITS, InRaise(RaiseUnlockR), status, Idle, REQUESTED);
  }

  lemma RunIntoReset(a: State, s0: State, status: PC) returns (s: State)
    requires Here(a, s0, REQUESTED, WAITS, Idle, status) && Resting(status)
    ensures Here(a, s, WITHOUT_DEVICE, InReset(ResetConnected), Idle, status)
  {
    hide Here, ConnectStep, SelectStep, InitStep, RaiseStep, ServiceStep, HoldsP, HoldsR, HoldsD, Notified, Passive;
    s := s0;
    AllPassive(status);
    s := MoveReset(a, s, REQUESTED, WAITS, Idle, status, InReset(ResetTest), REQUESTED);
    s := MoveReset(a, s, REQUESTED, InReset(ResetTest), Idle, status, InReset(ResetWantD), REQUESTED);
    s := MoveReset(a, s, REQUESTED, InReset(ResetWantD), Idle, status, InReset(ResetNodes), REQUESTED);
    s := MoveReset(a, s, REQUESTED, InReset(ResetNodes), Idle, status, InReset(ResetDevice), WITHOUT_NODE);
    s := MoveReset(a, s, WITHOUT_NODE, InReset(ResetDevice), Idle, status, InReset(ResetConnected), WITHOUT_DEVICE);
  }

  lemma RunThroughReset(a: State, s0: State, status: PC) returns (s: State)
    requires Here(a, s0, WITHOUT_DEVICE, InReset(ResetConnected), Idle, status) && Resting(status)
    ensures Here(a, s, CLEARED, InReset(ResetClear), Idle, status)
  {
    hide Here, ConnectStep, SelectStep, InitStep, RaiseStep, ServiceStep, HoldsP, HoldsR, HoldsD, Notified, Passive;
    s := s0;
    AllPassive(status);
    s := MoveReset(a, s, WITHOUT_DEVICE, InReset(ResetConnected), Idle, status, InReset(ResetUnlockD), CLEARED);
    s := MoveReset(a, s, CLEARED, InReset(ResetUnlockD), Idle, status, InReset(ResetClear), CLEARED);
  }

  lemma RunOutOfReset(a: State, s0: State, status: PC) returns (s: State)
    requires Here(a, s0, CLEARED, InReset(ResetClear), Idle, status) && Resting(status)
    ensures Here(a, s, NOTHING, WAITS, Idle, status)
  {
    hide Here, ConnectStep, SelectStep, InitStep, RaiseStep, ServiceStep, HoldsP, HoldsR, HoldsD, Notified, Passive;
    s := s0;
    AllPassive(status);
    s := MoveReset(a, s, CLEARED, InReset(ResetClear), Idle, status, InReset(ResetNotify), NOTHING);
    s := MoveReset(a, s, NOTHING, InReset(ResetNotify), Idle, status, InReset(ResetUnlockR), NOTHING);
    s := MoveReset(a, s, NOTHING, InReset(ResetUnlockR), Idle, status, WAITS, NOTHING);
  }

  lemma RunToUse(a: State, s0: State) returns (s: State)
    requires Here(a, s0, NODE, WAITS, InInit(InitVerdict(false, false)), InService(StatusTry))
    ensures Here(a, s, NODE, WAITS, InInit(InitVerdict(false, false)), InService(StatusUse))
  {
    hide Here, ConnectStep, SelectStep, InitStep, RaiseStep, ResetStep;
    s := s0;
    s := MoveStatus(a, s, NODE, WAITS, InInit(InitVerdict(false, false)), InService(StatusTry),
                    InService(StatusAsk), NODE);
    s := MoveStatus(a, s, NODE, WAITS, InInit(InitVerdict(false, false)), InService(StatusAsk),
                    InService(StatusUse), NODE);
  }

  /** The failing run: the status timer sees a connected device, which is then disconnected and reset; while it
      uses the camera node of the next connection, that node turns out not to be initialized and is taken away. */
  lemma NodeIsTaken() returns (a: State, s: State, s': State)
    ensures Init(a) && Reaches(a, s) && |s.pcs| == 3 && s.pcs[2] == InService(StatusUse) && s.data.camera
    ensures Next(s, 1, s') && s'.pcs[2] == InService(StatusUse) && !s'.data.camera
  {
    a := State(CAMERAS, NOTHING, [WAITS, Idle, Idle]);
    s := RunToTaker(a);
    LastStep(a, s);
    hide Reaches, Next, TakesNode;
    s' := TakeNode(s, 1);
  }

  lemma LastStep(a: State, s: State)
    requires Here(a, s, NODE, WAITS, InInit(InitVerdict(false, false)), InService(StatusUse))
    ensures Reaches(a, s) && |s.pcs| == 3 && s.pcs[2] == InService(StatusUse) && s.data.camera
    ensures TakesNode(s.pcs[1], s.data)
  {
    hide Reaches;
  }

  lemma RunToTaker(a: State) returns (s: State)
    requires a == State(CAMERAS, NOTHING, [WAITS, Idle, Idle])
    ensures Here(a, s, NODE, WAITS, InInit(InitVerdict(false, false)), InService(StatusUse))
  {
    assert Here(a, a, NOTHING, WAITS, Idle, Idle) by {
      assert IsRun([a], []);
    }
    hide Here;
    s := RunToLock(a, a, Idle);
    s := RunToFound(a, s, Idle);
    s := RunToVerdict(a, s, Idle, true);
    s := RunToConnected(a, s, Idle);
    s := RunToStatus(a, s);
    s := RunToRequest(a, s, InService(StatusTry));
    s := RunIntoReset(a, s, InService(StatusTry));
    s := RunThroughReset(a, s, InService(StatusTry));
    s := RunOutOfReset(a, s, InService(StatusTry));
    s := RunToLock(a, s, InService(StatusTry));
    s := RunToFound(a, s, InService(StatusTry));
    s := RunToVerdict(a, s, InService(StatusTry), false);
    s := RunToUse(a, s);
  }

  /* checkConnectionTimer takes no lock, so a whole reset and a new connection fit between its look at the nodes and
     its write. */

  lemma RunToTimer(a: State, s0: State) returns (s: State)
    requires Here(a, s0, CONNECTED, WAITS, Idle, Idle)
    ensures Here(a, s, CONNECTED, WAITS, Idle, InService(TimerNodes))
  {
    hide Here, ConnectStep, SelectStep, InitStep, RaiseStep, ResetStep;
    s := s0;
    s := MoveStatus(a, s, CONNECTED, WAITS, Idle, Idle, InService(TimerTest), CONNECTED);
    s := MoveStatus(a, s, CONNECTED, WAITS, Idle, InService(TimerTest), InService(TimerNodes), CONNECTED);
  }

  lemma RunPastNodes(a: State, s0: State) returns (s: State)
    requires Here(a, s0, WITHOUT_DEVICE, InReset(ResetConnected), Idle, InService(TimerNodes))
    ensures Here(a, s, WITHOUT_DEVICE, InReset(ResetConnected), Idle, InService(TimerClear))
  {
    hide Here, ConnectStep, SelectStep, InitStep, RaiseStep, ResetStep;
    s := MoveStatus(a, s0, WITHOUT_DEVICE, InReset(ResetConnected), Idle, InService(TimerNodes),
                    InService(TimerClear), WITHOUT_DEVICE);
  }

  lemma RunToLateClear(a: State) returns (s: State)
    requires a == State(CAMERAS, NOTHING, [WAITS, Idle, Idle])
    ensures Here(a, s, CONNECTED, WAITS, Idle, InService(TimerClear))
  {
    assert Here(a, a, NOTHING, WAITS, Idle, Idle) by {
      assert IsRun([a], []);
    }
    hide Here;
    s := RunToLock(a, a, Idle);
    s := RunToFound(a, s, Idle);
    s := RunToVerdict(a, s, Idle, true);
    s := RunToConnected(a, s, Idle);
    s := RunToTimer(a, s);
    s := RunToRequest(a, s, InService(TimerNodes));
    s := RunIntoReset(a, s, InService(TimerNodes));
    s := RunPastNodes(a, s);
    s := RunThroughReset(a, s, InService(TimerClear));
    s := RunOutOfReset(a, s, InService(TimerClear));
    s := RunToLock(a, s, InService(TimerClear));
    s := RunToFound(a, s, InService(TimerClear));
    s := RunToVerdict(a, s, InService(TimerClear), true);
    s := RunToConnected(a, s, InService(TimerClear));
  }

  /** The failing run: the timer sees no node because a reset has just taken it away; then the reset ends and the next
      connection succeeds; and then the timer clears device_connected_ of a device that is there with its node. */
  lemma TimerClearsLiveDevice() returns (a: State, s: State, s': State)
    ensures Init(a) && Reaches(a, s) && |s.pcs| == 3 && s.pcs[2] == InService(TimerClear) && s.data == CONNECTED
    ensures Next(s, 2, s') && s'.data == CONNECTED.(connected := false) && s'.data.device && s'.data.camera
  {
    a := State(CAMERAS, NOTHING, [WAITS, Idle, Idle]);
    s := RunToLateClear(a);
    hide Reaches;
    s' := State(CAMERAS, NODE, [WAITS, Idle, Idle]);
  }

  /** Threads with nothing to do: idle, or waiting without having been notified. */
  predicate Asleep(pc: PC) {
    pc == Idle || pc == InConnect(ConnectWaiting(false)) || pc == InReset(ResetWaiting(false))
  }

  /* Every other thread has a step, locks permitting. */

  lemma ConnectGoesOn(c: ConnectPC, d: Data) returns (pc': PC)
    ensures ConnectStep(c, d, pc', d)
  {
    match c
    case ConnectWantR => pc' := InConnect(ConnectTestReset);
    case ConnectTestReset => pc' := InConnect(if d.reset then ConnectWaiting(false) else ConnectUnlockR);
    case ConnectWaiting(_) => pc' := InConnect(ConnectWantR);
    case ConnectUnlockR => pc' := InConnect(ConnectTestOnce);
    case ConnectTestOnce => pc' := Idle;
    case ConnectWantP => pc' := InConnect(ConnectTestTwice);
    case ConnectTestTwice => pc' := if d.connected then InConnect(ConnectUnlockP) else InSelect(SelectWantClear);
    case ConnectUnlockP => pc' := Idle;
  }

  lemma SelectGoesOn(setup: Setup, c: SelectPC, d: Data) returns (pc': PC, d': Data)
    ensures SelectStep(setup, c, d, pc', d')
  {
    d' := d;
    match c
    case SelectWantClear => pc' := InSelect(SelectClear);
    case SelectClear => pc', d' := InSelect(SelectUnlockClear), d.(camera := false, device := false);
    case SelectUnlockClear => pc' := InSelect(Select);
    case Select => pc' := InSelect(SelectFound);
    case SelectWantLook(left) => pc' := InSelect(SelectLook(left));
    case SelectLook(left) => pc' := InSelect(SelectUnlockLook(left));
    case SelectUnlockLook(_) => pc' := InSelect(SelectFound);
    case SelectFound => pc', d' := InConnect(ConnectUnlockP), d.(connected := false);
  }

  lemma InitGoesOn(setup: Setup, c: InitPC, d: Data) returns (pc': PC, d': Data)
    ensures InitStep(setup, c, d, pc', d')
  {
    d' := d;
    match c
    case InitWantD => pc' := InInit(InitDevice);
    case InitDevice => pc', d' := InInit(InitUnlockD), d.(device := false, connected := false);
    case InitClean | InitNode | InitVerdict(_, _) => pc' := InInit(UnwindD);
    case InitUnlockD => pc' := InConnect(ConnectUnlockP);
    case UnwindD => pc' := InInit(UnwindP);
    case UnwindP => pc' := InRaise(RaiseWantR);
  }

  lemma ResetGoesOn(r: ResetPC, d: Data) returns (r': ResetPC, d': Data)
    ensures ResetStep(r, d, r', d')
  {
    d' := d;
    match r
    case ResetWantR => r' := ResetTest;
    case ResetTest => r' := if d.reset then ResetWantD else ResetWaiting(false);
    case ResetWaiting(_) => r' := ResetWantR;
    case ResetWantD => r' := ResetNodes;
    case ResetNodes => r', d' := ResetDevice, if d.camera then d.(camera := false) else d.(lidar := false);
    case ResetDevice => r', d' := ResetConnected, d.(device := false);
    case ResetConnected => r', d' := ResetUnlockD, d.(connected := false);
    case ResetUnlockD => r' := ResetClear;
    case ResetClear => r', d' := ResetNotify, d.(reset := false);
    case ResetNotify => r' := ResetUnlockR;
    case ResetUnlockR => r' := ResetWantR;
  }

  lemma ServiceGoesOn(v: ServicePC, d: Data) returns (pc': PC, d': Data)
    ensures ServiceStep(v, d, pc', d')
  {
    pc', d' := Idle, d;
    match v
    case RebootWantR => pc' := InService(RebootWantD);
    case RebootWantD => pc' := InService(Reboot);
    case Reboot => pc' := InService(RebootUnlockD);
    case RebootUnlockD => pc' := InService(RebootUnlockR);
    case RebootUnlockR => pc' := InService(RebootUnlockP);
    case TimerTest => pc' := if d.connected then InService(TimerNodes) else Idle;
    case TimerNodes => pc' := if !d.camera && !d.lidar then InService(TimerClear) else Idle;
    case TimerClear => d' := d.(connected := false);
    case StatusTest => pc' := if d.connected then InService(StatusTry) else Idle;
    case StatusAsk => pc' := InService(if !d.reset && d.camera then StatusUse else StatusEnd);
    case StatusUse => pc' := InService(StatusEnd);
    case _ =>
  }

  lemma GoesOn(setup: Setup, pc: PC, d: Data) returns (pc': PC, d': Data)
    requires !Asleep(pc)
    ensures Local(setup, pc, d, pc', d')
  {
    hide ConnectStep, SelectStep, InitStep, ResetStep, ServiceStep;
    d' := d;
    match pc
    case InConnect(c) => pc' := ConnectGoesOn(c, d);
    case InSelect(c) => pc', d' := SelectGoesOn(setup, c, d);
    case InInit(c) => pc', d' := InitGoesOn(setup, c, d);
    case InRaise(c) =>
      match c {
        case RaiseWantR => pc' := InRaise(RaiseSet);
        case RaiseSet => pc', d' := InRaise(RaiseNotify), d.(reset := true);
        case RaiseNotify => pc' := InRaise(RaiseUnlockR);
        case RaiseUnlockR => pc' := Idle;
      }
    case InReset(r) =>
      var r';
      r', d' := ResetGoesOn(r, d);
      pc' := InReset(r');
    case InService(v) => pc', d' := ServiceGoesOn(v, d);
  }

  lemma HoldersAwake(pc: PC)
    requires HoldsP(pc) || HoldsR(pc) || HoldsD(pc)
    ensures !Asleep(pc)
  {
  }

  /** Thread t can take a step that is neither the start of a callback nor a spurious wakeup. */
  ghost predicate CanStep(s: State, t: nat) {
    t < |s.pcs| && !Asleep(s.pcs[t]) && exists s' :: Next(s, t, s')
  }

  /** A thread whose next lock, in the order P < R < D, comes after all locks that are held can step. */
  lemma StepIfFree(s: State, t: nat)
    requires t < |s.pcs| && !Asleep(s.pcs[t])
    requires HoldsD(s.pcs[t]) || (FreeD(s) && (HoldsR(s.pcs[t]) || (FreeR(s) && (HoldsP(s.pcs[t]) || FreeP(s)))))
    ensures CanStep(s, t)
  {
    hide Local, HoldsP, HoldsR, HoldsD, ConnectedRule, DeviceRule, NodeRule, ResetRule, Asleep;
    var pc := s.pcs[t];
    var pc', d' := GoesOn(s.setup, pc, s.data);
    EveryStepObeys(s.setup, pc, s.data, pc', d');
    var pcs := seq(|s.pcs|, u requires 0 <= u < |s.pcs| =>
                   if u == t then pc' else if Notifies(pc) then Notified(s.pcs[u]) else s.pcs[u]);
    assert Next(s, t, State(s.setup, d', pcs));
  }

  /** No state is stuck: as long as some thread has something to do, some thread can do it. */
  lemma NoDeadlock(s: State, w: nat)
    requires w < |s.pcs| && !Asleep(s.pcs[w])
    ensures exists t :: CanStep(s, t)
  {
    hide HoldsP, HoldsR, HoldsD, Asleep, CanStep;
    if t: nat :| t < |s.pcs| && HoldsD(s.pcs[t]) {
      HoldersAwake(s.pcs[t]);
      StepIfFree(s, t);
    } else if t: nat :| t < |s.pcs| && HoldsR(s.pcs[t]) {
      HoldersAwake(s.pcs[t]);
      StepIfFree(s, t);
    } else if t: nat :| t < |s.pcs| && HoldsP(s.pcs[t]) {
      HoldersAwake(s.pcs[t]);
      StepIfFree(s, t);
    } else {
      StepIfFree(s, w);
    }
  }

  /** When nobody has anything left to do and there is a reset thread, no request is pending and no
      connect callback waits: no wakeup was lost. */
  lemma QuietIsClean(s: State, r: nat)
    requires Inv(s) && r < |s.pcs| && s.pcs[r].InReset?
    requires forall t | 0 <= t < |s.pcs| :: Asleep(s.pcs[t])
    ensures !s.data.reset
    ensures forall t | 0 <= t < |s.pcs| :: s.pcs[t] == Idle || s.pcs[t] == InReset(ResetWaiting(false))
  {
    hide Exclusive, Consistent;
    assert Asleep(s.pcs[r]);
    assert forall t | 0 <= t < |s.pcs| :: !Notifies(s.pcs[t]) by {
      forall t | 0 <= t < |s.pcs| ensures !Notifies(s.pcs[t]) {
        assert Asleep(s.pcs[t]);
      }
    }
    assert s.pcs[r] == InReset(ResetWaiting(false));
    forall t | 0 <= t < |s.pcs| ensures s.pcs[t] == Idle || s.pcs[t] == InReset(ResetWaiting(false)) {
      assert Asleep(s.pcs[t]);
    }
  }

  /* Termination: how many steps a thread can still take before it sleeps, by the size of the
     system. A notify can add 9 to every thread, and a pending request is worth one more round of the reset
     thread. */

  const WAKE := 9

  /** The number of threads, and of devices in a list. */
  datatype Size = Size(threads: nat, devices: nat)

  function Request(z: Size): nat { 10 + WAKE * z.threads }

  function Weight(pc: PC, z: Size): nat {
    match pc
    case Idle => 0
    case InConnect(c) =>
      if c == ConnectUnlockP then 1 else Request(z) + WAKE * z.threads + 3 * z.devices + ConnectLeft(c)
    case InSelect(c) => Request(z) + WAKE * z.threads + SelectLeft(c, z)
    case InInit(c) => Request(z) + WAKE * z.threads + InitLeft(c)
    case InRaise(c) => (
      match c
      case RaiseWantR => Request(z) + WAKE * z.threads + 4
      case RaiseSet => Request(z) + WAKE * z.threads + 3
      case RaiseNotify => WAKE * z.threads + 2
      case RaiseUnlockR => 1)
    case InReset(r) => if r == ResetNotify then Request(z) else ResetLeft(r)
    case InService(v) => ServiceLeft(v)
  }

  function InitLeft(c: InitPC): nat {
    match c
    case UnwindP => 5
    case UnwindD => 6
    case InitUnlockD => 7
    case InitVerdict(_, _) => 8
    case InitNode => 9
    case InitClean => 10
    case InitDevice => 11
    case InitWantD => 12
  }

  function SelectLeft(c: SelectPC, z: Size): nat {
    match c
    case SelectFound => 13
    case SelectUnlockLook(left) => 14 + 3 * left
    case SelectLook(left) => 15 + 3 * left
    case SelectWantLook(left) => 16 + 3 * left
    case Select => 17 + 3 * z.devices
    case SelectUnlockClear => 18 + 3 * z.devices
    case SelectClear => 19 + 3 * z.devices
    case SelectWantClear => 20 + 3 * z.devices
  }

  function ConnectLeft(c: ConnectPC): nat {
    match c
    case ConnectUnlockP => 0
    case ConnectTestTwice => 21
    case ConnectWantP => 22
    case ConnectTestOnce => 23
    case ConnectUnlockR => 24
    case ConnectWaiting(notified) => if notified then 28 else 25
    case ConnectTestReset => 26
    case ConnectWantR => 27
  }

  function ResetLeft(r: ResetPC): nat {
    match r
    case ResetWaiting(notified) => if notified then 9 else 0
    case ResetClear => 1
    case ResetUnlockD => 2
    case ResetConnected => 3
    case ResetDevice => 4
    case ResetNodes => 5
    case ResetWantD => 6
    case ResetTest => 7
    case ResetWantR => 8
    case ResetUnlockR => 9
    case ResetNotify => 10
  }

  function ServiceLeft(v: ServicePC): nat {
    match v
    case RebootUnlockP | TimerClear | StatusEnd => 1
    case RebootUnlockR | TimerNodes | StatusUse => 2
    case RebootUnlockD | TimerTest | StatusAsk => 3
    case Reboot | StatusTry => 4
    case RebootWantD | StatusTest => 5
    case RebootWantR => 6
    case RebootWantP => 7
  }

  function Charge(pc: PC, d: Data, z: Size): nat {
    Weight(pc, z) + if d.reset then Request(z) else 0
  }

  predicate WeightRule(pc: PC, d: Data, pc': PC, d': Data, z: Size) {
    Charge(pc', d', z) + (if Notifies(pc) then WAKE * z.threads else 0) < Charge(pc, d, z)
  }

  lemma ConnectPays(c: ConnectPC, d: Data, pc': PC, d': Data, z: Size)
    requires ConnectStep(c, d, pc', d') && c != ConnectWaiting(false)
    ensures WeightRule(InConnect(c), d, pc', d', z)
  {
  }

  lemma SelectPays(setup: Setup, c: SelectPC, d: Data, pc': PC, d': Data, z: Size)
    requires SelectStep(setup, c, d, pc', d') && z.devices == setup.devices
    ensures WeightRule(InSelect(c), d, pc', d', z)
  {
    hide Request, ServiceLeft, ResetLeft;
  }

  lemma InitPays(setup: Setup, c: InitPC, d: Data, pc': PC, d': Data, z: Size)
    requires InitStep(setup, c, d, pc', d')
    ensures WeightRule(InInit(c), d, pc', d', z)
  {
  }

  lemma ResetPays(r: ResetPC, d: Data, r': ResetPC, d': Data, z: Size)
    requires ResetStep(r, d, r', d') && r != ResetWaiting(false) && (Resetting(InReset(r)) ==> d.reset)
    ensures WeightRule(InReset(r), d, InReset(r'), d', z)
  {
  }

  lemma ServicePays(v: ServicePC, d: Data, pc': PC, d': Data, z: Size)
    requires ServiceStep(v, d, pc', d')
    ensures WeightRule(InService(v), d, pc', d', z)
  {
  }

  lemma EveryStepPays(setup: Setup, pc: PC, d: Data, pc': PC, d': Data, z: Size)
    requires Local(setup, pc, d, pc', d') && !Asleep(pc) && (Resetting(pc) ==> d.reset) && z.devices == setup.devices
    ensures WeightRule(pc, d, pc', d', z)
  {
    hide Resetting, ConnectStep, SelectStep, InitStep, ResetStep, ServiceStep;
    match pc
    case InConnect(c) => ConnectPays(c, d, pc', d', z);
    case InSelect(c) => SelectPays(setup, c, d, pc', d', z);
    case InInit(c) => InitPays(setup, c, d, pc', d', z);
    case InRaise(c) =>
    case InReset(r) => ResetPays(r, d, pc'.reset, d', z);
    case InService(v) => ServicePays(v, d, pc', d', z);
  }

  function Total(pcs: seq<PC>, z: Size): nat {
    if pcs == [] then 0 else Total(pcs[..|pcs| - 1], z) + Weight(pcs[|pcs| - 1], z)
  }

  function SizeOf(s: State): Size { Size(|s.pcs|, s.setup.devices) }

  function Rank(s: State): nat {
    Total(s.pcs, SizeOf(s)) + if s.data.reset then Request(SizeOf(s)) else 0
  }

  lemma NotifiedWeight(pc: PC, z: Size)
    ensures Weight(Notified(pc), z) <= Weight(pc, z) + WAKE
  {
  }

  /** A step changes the total by what it changes its own thread, and by at most WAKE for each other
      thread if it notifies. */
  lemma {:induction false} TotalChange(pcs: seq<PC>, pcs': seq<PC>, t: nat, notify: bool, z: Size)
    requires |pcs| == |pcs'|
    requires forall u | 0 <= u < |pcs| && u != t :: pcs'[u] == if notify then Notified(pcs[u]) else pcs[u]
    ensures Total(pcs', z) + (if t < |pcs| then Weight(pcs[t], z) else 0)
            <= Total(pcs, z) + (if t < |pcs| then Weight(pcs'[t], z) else 0) + if notify then WAKE * |pcs| else 0
  {
    hide Weight, Notified;
    if pcs != [] {
      var m := |pcs| - 1;
      TotalChange(pcs[..m], pcs'[..m], t, notify, z);
      NotifiedWeight(pcs[m], z);
    }
  }

  /** Every step of a thread that is not asleep makes the rank smaller. */
  lemma RankFalls(s: State, t: nat, s': State)
    requires Inv(s) && Next(s, t, s') && !Asleep(s.pcs[t])
    ensures Rank(s') < Rank(s)
  {
    hide Local, LocksAllow, Weight, Notified, Resetting, Exclusive, NoLostWakeup, Total, Asleep, Connecting, Notifies;
    EveryStepPays(s.setup, s.pcs[t], s.data, s'.pcs[t], s'.data, SizeOf(s));
    TotalChange(s.pcs, s'.pcs, t, Notifies(s.pcs[t]), SizeOf(s));
  }

  /** No new callback begins and no wait ends without a notify. */
  ghost predicate IsWorkRun(run: seq<State>, who: seq<nat>) {
    |run| == |who| + 1 && forall i | 0 <= i < |who| :: Next(run[i], who[i], run[i + 1]) && !Asleep(run[i].pcs[who[i]])
  }

  lemma {:induction false} WorkEnds(run: seq<State>, who: seq<nat>)
    requires IsWorkRun(run, who) && Inv(run[0])
    ensures |who| + Rank(run[|who|]) <= Rank(run[0])
  {
    if |who| > 0 {
      var m := |who| - 1;
      assert Next(run[m], who[m], run[m + 1]) && !Asleep(run[m].pcs[who[m]]);
      hide Inv, Asleep, Next, Rank;
      WorkEnds(run[..|who|], who[..m]);
      RunKeepsInv(run[..|who|], who[..m]);
      RankFalls(run[m], who[m], run[m + 1]);
    }
  }

  lemma KeepsRole(s: State, t: nat, s': State, r: nat)
    requires Next(s, t, s') && r < |s.pcs| && s.pcs[r].InReset?
    ensures s'.pcs[r].InReset?
  {
    hide Local, LocksAllow, ConnectedRule, DeviceRule, NodeRule, LockRule, Resetting, HoldsR;
    if r == t {
      EveryStepObeys(s.setup, s.pcs[t], s.data, s'.pcs[t], s'.data);
    } else {
      OthersSame(s, t, s', r);
    }
  }

  lemma {:induction false} RunKeepsRole(run: seq<State>, who: seq<nat>, r: nat)
    requires IsRun(run, who) && r < |run[0].pcs| && run[0].pcs[r].InReset?
    ensures r < |run[|who|].pcs| && run[|who|].pcs[r].InReset?
  {
    if |who| > 0 {
      var m := |who| - 1;
      assert Next(run[m], who[m], run[m + 1]);
      RunKeepsRole(run[..|who|], who[..m], r);
      KeepsRole(run[m], who[m], run[m + 1], r);
    }
  }

  /** From every reachable state s, once no new callback begins and no wait ends by itself, the threads
      stop after at most Rank(s) steps, whatever the interleaving and whatever the device does; and where
      no thread can go on any more, no reset is pending and every connect callback has come to its end. */
  lemma Settles(run: seq<State>, who: seq<nat>, r: nat)
    requires IsWorkRun(run, who) && Inv(run[0]) && r < |run[0].pcs| && run[0].pcs[r].InReset?
    ensures |who| <= Rank(run[0])
    ensures var s := run[|who|];
            (forall t :: !CanStep(s, t)) ==>
              && !s.data.reset
              && forall t | 0 <= t < |s.pcs| :: s.pcs[t] == Idle || s.pcs[t] == InReset(ResetWaiting(false))
  {
    hide Inv, CanStep, Rank, Asleep;
    WorkEnds(run, who);
    RunKeepsInv(run, who);
    RunKeepsRole(run, who, r);
    var s := run[|who|];
    if forall t :: !CanStep(s, t) {
      forall w: nat | w < |s.pcs|
        ensures Asleep(s.pcs[w])
      {
        if !Asleep(s.pcs[w]) {
          NoDeadlock(s, w);
        }
      }
      QuietIsClean(s, r);
    }
  }
}
