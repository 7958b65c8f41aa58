/** The configuration record and its text file (src/config/config.cpp). */
module Config {
  import opened Text
  import opened Protocol

  type int32 = x: int | -0x8000_0000 <= x < 0x8000_0000

  datatype AppConfig = AppConfig(
    deviceId: string, displayName: string, platform: string,
    listenPort: uint16, discoveryPort: uint16, enableIPv6: bool, maxMessageSize: uint32,
    connectTimeoutSecs: int32, readTimeoutSecs: int32, keepaliveIntervalSecs: int32,
    discoveryEnabled: bool,
    pskHash: string, requireAuth: bool,
    logLevel: string, logFile: string)
}
